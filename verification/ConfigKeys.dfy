/** config_set payloads: dotted, nested and mixed-case keys merged into one tree. */
module ConfigKeys {
  import Text
  import opened Wrappers

  /** A decoded JSON value: an object, or anything else. */
  datatype Json = Leaf(value: int) | Obj(fields: map<string, Json>)

  datatype Error =
    | ControlCharacter(key: string)
    | EmptySegment(key: string)
    | SetTwice(path: string)
    | ValueAndSection(path: string)

  datatype Result<T> = Ok(value: T) | Err(error: Error)

  /** How characters are folded, two names being alike when they fold to the same, and which are spaces. */
  datatype Rules = Rules(fold: string -> string, space: char -> bool)

  predicate HasControl(s: string) {
    exists i :: 0 <= i < |s| && (s[i] < ' ' || s[i] as int == 0x7f)
  }

  predicate Blank(r: Rules, s: string) {
    forall i :: 0 <= i < |s| ==> r.space(s[i])
  }

  /** An object with something in it. An empty one is a value. */
  predicate Nested(j: Json) {
    j.Obj? && j.fields != map[]
  }

  // ---- The tree ----

  /** No two names of one object are alike, at any depth. */
  ghost predicate Distinct(r: Rules, j: Json) {
    j.Obj? ==>
      && (forall a, b :: a in j.fields && b in j.fields && r.fold(a) == r.fold(b) ==> a == b)
      && (forall a :: a in j.fields ==> Distinct(r, j.fields[a]))
  }

  /** No name has a dot in it. */
  ghost predicate OneSegment(j: Json) {
    j.Obj? ==> forall a :: a in j.fields ==> '.' !in a && OneSegment(j.fields[a])
  }

  /** The name in m that folds to f. */
  ghost function Named(r: Rules, m: map<string, Json>, f: string): (n: Option<string>)
    ensures n.Some? ==> n.value in m && r.fold(n.value) == f
    ensures n.None? ==> forall k :: k in m ==> r.fold(k) != f
  {
    if k :| k in m && r.fold(k) == f then Some(k) else None
  }

  /** ConfigChild: the exact name if it is there, otherwise one that is alike. */
  method ConfigChild(r: Rules, m: map<string, Json>, key: string) returns (n: Option<string>)
    ensures key in m ==> n == Some(key)
    ensures n.Some? ==> n.value in m && r.fold(n.value) == r.fold(key)
    ensures n.None? ==> forall k :: k in m ==> r.fold(k) != r.fold(key)
    ensures Distinct(r, Obj(m)) ==> n == Named(r, m, r.fold(key))
  {
    if key in m { return Some(key); }
    var rest := m.Keys;
    while rest != {}
      invariant rest <= m.Keys
      invariant forall k :: k in m && r.fold(k) == r.fold(key) ==> k in rest
      decreases |rest|
    {
      var k :| k in rest;
      if r.fold(k) == r.fold(key) { return Some(k); }
      rest := rest - {k};
    }
    return None;
  }

  // ---- Merging a payload ----

  function Extend(path: string, part: string): string {
    if path == "" then part else path + "." + part
  }

  /** What m holds once value is put at the end of parts; key is the payload's key and path what leads to m. */
  ghost function Put(r: Rules, m: map<string, Json>, parts: seq<string>, value: Json, path: string,
                     key: string)
    : Result<map<string, Json>>
    requires parts != []
    decreases value, 2, |parts|
  {
    if Blank(r, parts[0]) then Err(EmptySegment(key))
    else
      var here, found := Extend(path, parts[0]), Named(r, m, r.fold(parts[0]));
      if |parts| == 1 && !Nested(value) then
        if found.Some? then Err(SetTwice(here)) else Ok(m[parts[0] := value])
      else if found.Some? && m[found.value].Leaf? then Err(ValueAndSection(here))
      else
        var at := if found.Some? then found.value else parts[0];
        var sub := if found.Some? then m[at].fields else map[];
        var inner := if |parts| > 1 then Put(r, sub, parts[1..], value, here, key)
          else Merge(r, sub, value, Text.SortSet(value.fields.Keys), here);
        if inner.Err? then inner else Ok(m[at := Obj(inner.value)])
  }

  /** What m holds once the keys of src are merged into it. */
  ghost function Merge(r: Rules, m: map<string, Json>, src: Json, keys: seq<string>, path: string)
    : Result<map<string, Json>>
    requires src.Obj? && forall k :: k in keys ==> k in src.fields
    decreases src, 1, |keys|
  {
    if keys == [] then Ok(m)
    else if HasControl(keys[0]) then Err(ControlCharacter(keys[0]))
    else
      assert keys[0] in keys;
      var one := Put(r, m, Text.Split(keys[0], '.'), src.fields[keys[0]], path, keys[0]);
      if one.Err? then one else Merge(r, one.value, src, keys[1..], path)
  }

  /** expandConfigKeys. */
  ghost function Expand(r: Rules, payload: map<string, Json>): Result<map<string, Json>> {
    Merge(r, map[], Obj(payload), Text.SortSet(payload.Keys), "")
  }

  // ---- What a payload sets ----

  /** One setting of a payload: its path cut into segments, its value, and whether a key on the way has a control
      character. */
  datatype Entry = Entry(path: seq<string>, value: Json, control: bool)

  function Prefixed(parts: seq<string>, control: bool, es: seq<Entry>): (r: seq<Entry>)
    ensures |r| == |es|
  {
    seq(|es|, i requires 0 <= i < |es| => Entry(parts + es[i].path, es[i].value, control || es[i].control))
  }

  ghost function Inside(value: Json): seq<Entry>
    decreases value, 2
  {
    if Nested(value) then EntriesOf(value, Text.SortSet(value.fields.Keys)) else [Entry([], value, false)]
  }

  ghost function EntriesOf(src: Json, keys: seq<string>): seq<Entry>
    requires src.Obj? && forall k :: k in keys ==> k in src.fields
    decreases src, 1, |keys|
  {
    if keys == [] then []
    else
      assert keys[0] in keys;
      Prefixed(Text.Split(keys[0], '.'), HasControl(keys[0]), Inside(src.fields[keys[0]])) + EntriesOf(src, keys[1..])
  }

  /** Everything a payload sets, in the order of its keys. */
  ghost function Entries(payload: map<string, Json>): seq<Entry> {
    EntriesOf(Obj(payload), Text.SortSet(payload.Keys))
  }

  ghost predicate Clean(r: Rules, e: Entry) {
    !e.control && forall i :: 0 <= i < |e.path| ==> !Blank(r, e.path[i])
  }

  function Fold(r: Rules, path: seq<string>): seq<string> {
    seq(|path|, i requires 0 <= i < |path| => r.fold(path[i]))
  }

  // ---- Setting one entry at a time ----

  ghost function Insert(r: Rules, m: map<string, Json>, path: seq<string>, value: Json): Option<map<string, Json>>
    requires path != []
    decreases |path|
  {
    var found := Named(r, m, r.fold(path[0]));
    if |path| == 1 then if found.Some? then None else Some(m[path[0] := value])
    else if found.Some? && m[found.value].Leaf? then None
    else
      var at := if found.Some? then found.value else path[0];
      var inner := Insert(r, if found.Some? then m[at].fields else map[], path[1..], value);
      if inner.None? then None else Some(m[at := Obj(inner.value)])
  }

  ghost predicate Proper(es: seq<Entry>) {
    forall e :: e in es ==> e.path != [] && !Nested(e.value)
  }

  ghost function InsertAll(r: Rules, m: map<string, Json>, es: seq<Entry>): Option<map<string, Json>>
    requires Proper(es)
    decreases |es|
  {
    if es == [] then Some(m)
    else
      assert es[0] in es;
      if !Clean(r, es[0]) then None
      else
        var one := Insert(r, m, es[0].path, es[0].value);
        if one.None? then None else InsertAll(r, one.value, es[1..])
  }

  lemma {:induction false} InsertAllConcat(r: Rules, m: map<string, Json>, a: seq<Entry>, b: seq<Entry>)
    requires Proper(a) && Proper(b)
    ensures Proper(a + b)
    ensures InsertAll(r, m, a + b) ==
      if InsertAll(r, m, a).None? then None else InsertAll(r, InsertAll(r, m, a).value, b)
    decreases |a|
  {
    if a == [] {
      assert a + b == b;
    } else {
      assert (a + b)[1..] == a[1..] + b && (a + b)[0] == a[0] && a[0] in a;
      if Clean(r, a[0]) && Insert(r, m, a[0].path, a[0].value).Some? {
        InsertAllConcat(r, Insert(r, m, a[0].path, a[0].value).value, a[1..], b);
      }
    }
  }

  lemma InsertKeeps(r: Rules, m: map<string, Json>, path: seq<string>, value: Json)
    requires path != [] && Distinct(r, Obj(m)) && !Nested(value)
    ensures Insert(r, m, path, value).Some? ==> Distinct(r, Obj(Insert(r, m, path, value).value))
    decreases |path|
  {
    var found := Named(r, m, r.fold(path[0]));
    if |path| > 1 && !(found.Some? && m[found.value].Leaf?) {
      InsertKeeps(r, if found.Some? then m[found.value].fields else map[], path[1..], value);
    }
  }

  lemma InsertOneSegment(r: Rules, m: map<string, Json>, path: seq<string>, value: Json)
    requires path != [] && OneSegment(Obj(m)) && !Nested(value) && forall p :: p in path ==> '.' !in p
    ensures Insert(r, m, path, value).Some? ==> OneSegment(Obj(Insert(r, m, path, value).value))
    decreases |path|
  {
    var found := Named(r, m, r.fold(path[0]));
    assert path[0] in path;
    if |path| > 1 && !(found.Some? && m[found.value].Leaf?) {
      InsertOneSegment(r, if found.Some? then m[found.value].fields else map[], path[1..], value);
    }
  }

  lemma {:induction false} InsertAllKeeps(r: Rules, m: map<string, Json>, es: seq<Entry>)
    requires Proper(es) && Distinct(r, Obj(m))
    ensures InsertAll(r, m, es).Some? ==> Distinct(r, Obj(InsertAll(r, m, es).value))
    decreases |es|
  {
    if es != [] {
      assert es[0] in es;
      InsertKeeps(r, m, es[0].path, es[0].value);
      if Clean(r, es[0]) && Insert(r, m, es[0].path, es[0].value).Some? {
        InsertAllKeeps(r, Insert(r, m, es[0].path, es[0].value).value, es[1..]);
      }
    }
  }

  // ---- Merging is setting the entries one at a time ----

  /** m with sub in place of what it holds under part. */
  ghost function Under(r: Rules, m: map<string, Json>, part: string, sub: Option<map<string, Json>>)
    : Option<map<string, Json>>
  {
    var found := Named(r, m, r.fold(part));
    if sub.None? then None else Some(m[if found.Some? then found.value else part := Obj(sub.value)])
  }

  /** What m holds under part, if it can hold settings. */
  ghost function Section(r: Rules, m: map<string, Json>, part: string): Option<map<string, Json>> {
    var found := Named(r, m, r.fold(part));
    if found.None? then Some(map[]) else if m[found.value].Leaf? then None else Some(m[found.value].fields)
  }

  lemma SectionAgain(r: Rules, m: map<string, Json>, part: string, sub: map<string, Json>)
    requires Distinct(r, Obj(m)) && Distinct(r, Obj(sub)) && Section(r, m, part).Some?
    ensures var n := Under(r, m, part, Some(sub)).value;
      && Distinct(r, Obj(n)) && Section(r, n, part) == Some(sub)
      && forall t :: Under(r, n, part, t) == Under(r, m, part, t)
  {
    var found := Named(r, m, r.fold(part));
    var at := if found.Some? then found.value else part;
    var n := m[at := Obj(sub)];
    assert at in n && r.fold(at) == r.fold(part);
    forall t | t != None ensures n[at := Obj(t.value)] == m[at := Obj(t.value)] {}
  }

  lemma PrefixedProper(parts: seq<string>, control: bool, es: seq<Entry>)
    requires forall e :: e in es ==> (e.path != [] || parts != []) && !Nested(e.value)
    ensures Proper(Prefixed(parts, control, es))
  {}

  lemma CleanUnder(r: Rules, part: string, e: Entry)
    ensures Clean(r, Entry([part] + e.path, e.value, e.control)) <==> !Blank(r, part) && Clean(r, e)
  {
    var p := [part] + e.path;
    assert forall i :: 0 <= i < |e.path| ==> p[i + 1] == e.path[i];
    assert p[0] == part;
  }

  /** Setting entries under one part is setting them inside the section there. */
  lemma {:induction false} InsertAllUnder(r: Rules, m: map<string, Json>, part: string, es: seq<Entry>)
    requires Distinct(r, Obj(m)) && Proper(es) && es != []
    ensures Proper(Prefixed([part], false, es))
    ensures InsertAll(r, m, Prefixed([part], false, es)) ==
      if Blank(r, part) || Section(r, m, part).None? then None
      else Under(r, m, part, InsertAll(r, Section(r, m, part).value, es))
    decreases |es|
  {
    PrefixedProper([part], false, es);
    var ps := Prefixed([part], false, es);
    assert es[0] in es;
    CleanUnder(r, part, es[0]);
    assert ps[0].path[1..] == es[0].path && ps[0].path[0] == part;
    assert ps[1..] == Prefixed([part], false, es[1..]);
    if Clean(r, ps[0]) && Section(r, m, part).Some? {
      var sub := Section(r, m, part).value;
      var inner := Insert(r, sub, es[0].path, es[0].value);
      assert Insert(r, m, ps[0].path, ps[0].value) == Under(r, m, part, inner);
      if inner.Some? {
        InsertKeeps(r, sub, es[0].path, es[0].value);
        SectionAgain(r, m, part, inner.value);
        if es[1..] != [] {
          InsertAllUnder(r, Under(r, m, part, inner).value, part, es[1..]);
        }
      }
    }
  }

  lemma {:induction false} InsideShape(value: Json)
    ensures Inside(value) != []
    ensures forall e :: e in Inside(value) ==> !Nested(e.value) && (Nested(value) ==> e.path != [])
    decreases value, 2
  {
    if Nested(value) {
      var keys := Text.SortSet(value.fields.Keys);
      assert keys != [] by {
        var k :| k in value.fields;
        assert k in keys;
      }
      EntriesShape(value, keys);
    }
  }

  lemma {:induction false} EntriesShape(src: Json, keys: seq<string>)
    requires src.Obj? && forall k :: k in keys ==> k in src.fields
    ensures Proper(EntriesOf(src, keys)) && (keys != [] ==> EntriesOf(src, keys) != [])
    decreases src, 1, |keys|
  {
    if keys != [] {
      assert keys[0] in keys;
      var inside := Inside(src.fields[keys[0]]);
      InsideShape(src.fields[keys[0]]);
      PrefixedProper(Text.Split(keys[0], '.'), HasControl(keys[0]), inside);
      EntriesShape(src, keys[1..]);
    }
  }

  ghost predicate Agree<T>(a: Result<T>, b: Option<T>) {
    (a.Ok? <==> b.Some?) && (a.Ok? ==> a.value == b.value)
  }

  /** The steps into a section: what Put does after its first part. */
  ghost function PutInside(r: Rules, sub: map<string, Json>, parts: seq<string>, value: Json, here: string,
                           key: string)
    : Result<map<string, Json>>
    requires parts != [] && (|parts| > 1 || Nested(value))
  {
    if |parts| > 1 then Put(r, sub, parts[1..], value, here, key)
    else Merge(r, sub, value, Text.SortSet(value.fields.Keys), here)
  }

  lemma PutUnder(r: Rules, m: map<string, Json>, parts: seq<string>, value: Json, path: string, key: string,
                 inner: Option<map<string, Json>>)
    requires parts != [] && (|parts| > 1 || Nested(value))
    requires Section(r, m, parts[0]).Some? ==>
      Agree(PutInside(r, Section(r, m, parts[0]).value, parts, value, Extend(path, parts[0]), key), inner)
    ensures Agree(Put(r, m, parts, value, path, key),
      if Blank(r, parts[0]) || Section(r, m, parts[0]).None? then None else Under(r, m, parts[0], inner))
  {}

  lemma {:induction false} PutInserts(r: Rules, m: map<string, Json>, parts: seq<string>, value: Json, path: string,
                                      key: string)
    requires parts != [] && Distinct(r, Obj(m))
    ensures Proper(Prefixed(parts, false, Inside(value)))
    ensures Agree(Put(r, m, parts, value, path, key), InsertAll(r, m, Prefixed(parts, false, Inside(value))))
    decreases value, 2, |parts|
  {
    InsideShape(value);
    PrefixedProper(parts, false, Inside(value));
    if |parts| == 1 && !Nested(value) {
      SingleEntry(r, m, parts[0], value);
      assert parts + [] == [parts[0]];
      assert Prefixed(parts, false, Inside(value)) == [Entry([parts[0]], value, false)];
    } else {
      var sub := if Section(r, m, parts[0]).Some? then Section(r, m, parts[0]).value else map[];
      var es := PutInsideInserts(r, sub, parts, value, Extend(path, parts[0]), key);
      PutUnder(r, m, parts, value, path, key, InsertAll(r, sub, es));
      InsertAllUnder(r, m, parts[0], es);
    }
  }

  lemma {:induction false} PutInsideInserts(r: Rules, sub: map<string, Json>, parts: seq<string>, value: Json,
                                            here: string, key: string)
    returns (es: seq<Entry>)
    requires parts != [] && Distinct(r, Obj(sub)) && (|parts| > 1 || Nested(value))
    ensures Proper(es) && es != [] && Prefixed(parts, false, Inside(value)) == Prefixed([parts[0]], false, es)
    ensures Agree(PutInside(r, sub, parts, value, here, key), InsertAll(r, sub, es))
    decreases value, 2, |parts|, 0
  {
    InsideShape(value);
    if |parts| == 1 {
      es := Inside(value);
      assert parts == [parts[0]];
      MergeInserts(r, sub, value, Text.SortSet(value.fields.Keys), here);
    } else {
      es := Prefixed(parts[1..], false, Inside(value));
      PrefixedTwice(parts, Inside(value));
      PutInserts(r, sub, parts[1..], value, here, key);
    }
  }

  lemma SingleEntry(r: Rules, m: map<string, Json>, part: string, value: Json)
    requires !Nested(value)
    ensures Proper([Entry([part], value, false)])
    ensures InsertAll(r, m, [Entry([part], value, false)]) ==
      if Blank(r, part) || Named(r, m, r.fold(part)).Some? then None else Some(m[part := value])
  {}

  lemma PrefixedTwice(parts: seq<string>, es: seq<Entry>)
    requires |parts| > 1
    ensures Prefixed(parts, false, es) == Prefixed([parts[0]], false, Prefixed(parts[1..], false, es))
  {
    forall i | 0 <= i < |es|
      ensures Prefixed(parts, false, es)[i] == Prefixed([parts[0]], false, Prefixed(parts[1..], false, es))[i]
    {
      assert parts + es[i].path == [parts[0]] + (parts[1..] + es[i].path);
    }
  }

  /** The recursive merge comes to setting the payload's entries one after another. */
  lemma {:induction false} MergeInserts(r: Rules, m: map<string, Json>, src: Json, keys: seq<string>, path: string)
    requires Distinct(r, Obj(m)) && src.Obj? && forall k :: k in keys ==> k in src.fields
    ensures Proper(EntriesOf(src, keys))
    ensures Agree(Merge(r, m, src, keys, path), InsertAll(r, m, EntriesOf(src, keys)))
    decreases src, 1, |keys|
  {
    EntriesShape(src, keys);
    if keys != [] {
      assert keys[0] in keys;
      var k, v := keys[0], src.fields[keys[0]];
      InsideShape(v);
      EntriesShape(src, keys[1..]);
      var parts := Text.Split(k, '.');
      var head, rest := Prefixed(parts, HasControl(k), Inside(v)), EntriesOf(src, keys[1..]);
      PrefixedProper(parts, HasControl(k), Inside(v));
      InsertAllConcat(r, m, head, rest);
      if HasControl(k) {
        assert !Clean(r, head[0]);
      } else {
        PutInserts(r, m, parts, v, path, k);
        InsertAllKeeps(r, m, head);
        var one := Put(r, m, parts, v, path, k);
        if one.Ok? { MergeInserts(r, one.value, src, keys[1..], path); }
      }
    }
  }

  // ---- What the tree holds at a path ----

  /** What j holds at a path of folded names. */
  ghost function At(r: Rules, j: Json, n: seq<string>): Option<Json>
    decreases |n|
  {
    if n == [] then Some(j)
    else if j.Leaf? || Named(r, j.fields, n[0]).None? then None
    else At(r, j.fields[Named(r, j.fields, n[0]).value], n[1..])
  }

  /** The same with the settings of a section left aside. */
  datatype View = Nothing | Value(value: Json) | Settings

  function ViewOf(j: Option<Json>): View {
    if j.None? then Nothing else if Nested(j.value) then Settings else Value(j.value)
  }

  ghost function SetUnder(r: Rules, m: map<string, Json>, part: string, inner: Json): map<string, Json> {
    var found := Named(r, m, r.fold(part));
    m[if found.Some? then found.value else part := inner]
  }

  lemma AtUnder(r: Rules, m: map<string, Json>, part: string, inner: Json, n: seq<string>)
    requires Distinct(r, Obj(m)) && Distinct(r, inner) && n != []
    ensures At(r, Obj(SetUnder(r, m, part, inner)), n) ==
      if n[0] == r.fold(part) then At(r, inner, n[1..]) else At(r, Obj(m), n)
  {}

  lemma HeadTail(f: seq<string>, n: seq<string>)
    requires f != [] && n != []
    ensures n == f <==> n[0] == f[0] && n[1..] == f[1..]
    ensures n < f <==> n[0] == f[0] && n[1..] < f[1..]
  {}

  lemma AtBelow(r: Rules, m: map<string, Json>, part: string, n: seq<string>)
    requires n != [] && n[0] == r.fold(part) && Section(r, m, part).Some?
    ensures n[1..] != [] ==> At(r, Obj(m), n) == At(r, Obj(Section(r, m, part).value), n[1..])
  {}

  /** After a value is set at a path it is there, sections lead to it, and the rest is as before. */
  lemma {:induction false} InsertAt(r: Rules, m: map<string, Json>, path: seq<string>, value: Json, n: seq<string>)
    requires path != [] && n != [] && Distinct(r, Obj(m)) && !Nested(value) && Insert(r, m, path, value).Some?
    ensures var f := Fold(r, path);
      ViewOf(At(r, Obj(Insert(r, m, path, value).value), n)) ==
        if n == f then Value(value) else if n < f then Settings else ViewOf(At(r, Obj(m), n))
    decreases |path|
  {
    var f := Fold(r, path);
    HeadTail(f, n);
    assert f[1..] == Fold(r, path[1..]);
    if |path| == 1 {
      assert Insert(r, m, path, value).value == SetUnder(r, m, path[0], value);
      AtUnder(r, m, path[0], value, n);
      assert n[0] != f[0] || |n| == 1 || At(r, value, n[1..]).None?;
    } else {
      var sub := Section(r, m, path[0]).value;
      var inner := Insert(r, sub, path[1..], value).value;
      assert Insert(r, m, path, value).value == SetUnder(r, m, path[0], Obj(inner));
      InsertKeeps(r, sub, path[1..], value);
      AtUnder(r, m, path[0], Obj(inner), n);
      var found := Named(r, sub, r.fold(path[1]));
      assert (if found.Some? then found.value else path[1]) in inner;
      if n[0] == f[0] && |n| == 1 {
        assert n[1..] == [] && At(r, Obj(inner), []) == Some(Obj(inner));
      }
      if n[0] == f[0] && |n| > 1 {
        InsertAt(r, sub, path[1..], value, n[1..]);
        AtBelow(r, m, path[0], n);
      }
    }
  }

  /** A value can be set at a path when nothing is there yet and no value on the way. */
  lemma {:induction false} InsertWhen(r: Rules, m: map<string, Json>, path: seq<string>, value: Json)
    requires path != [] && Distinct(r, Obj(m)) && !Nested(value)
    ensures var f := Fold(r, path);
      Insert(r, m, path, value).Some? <==>
        At(r, Obj(m), f).None? && forall k :: 0 < k < |f| ==>
          At(r, Obj(m), f[..k]).None? || At(r, Obj(m), f[..k]).value.Obj?
    decreases |path|
  {
    var f, g := Fold(r, path), Fold(r, path[1..]);
    assert f == [f[0]] + g;
    var section := Section(r, m, path[0]);
    if |path| > 1 {
      assert f[..1] == [f[0]];
      if section.Some? {
        InsertWhen(r, section.value, path[1..], value);
        AtInside(r, m, path[0], g);
        forall k | 0 < k < |g| ensures At(r, Obj(m), f[..k + 1]) == At(r, Obj(section.value), g[..k]) {
          assert f[..k + 1] == [f[0]] + g[..k];
          AtInside(r, m, path[0], g[..k]);
        }
        forall k | 1 < k < |f| ensures At(r, Obj(m), f[..k]) == At(r, Obj(section.value), g[..k - 1]) {
          assert f[..k] == [f[0]] + g[..k - 1];
          AtInside(r, m, path[0], g[..k - 1]);
        }
      }
    }
  }

  lemma AtInside(r: Rules, m: map<string, Json>, part: string, g: seq<string>)
    requires g != [] && Section(r, m, part).Some?
    ensures At(r, Obj(m), [r.fold(part)] + g) == At(r, Obj(Section(r, m, part).value), g)
  {}

  // ---- Runs of settings ----

  /** What a tree holds at a path once the entries are set: settings below it, or the value of the entry that is
      there. */
  ghost function Kind(r: Rules, es: seq<Entry>, n: seq<string>): View {
    if exists i :: 0 <= i < |es| && n < Fold(r, es[i].path) then Settings
    else if i :| 0 <= i < |es| && n == Fold(r, es[i].path) then Value(es[i].value)
    else Nothing
  }

  ghost predicate Holds(r: Rules, m: map<string, Json>, es: seq<Entry>) {
    forall n :: n != [] ==> ViewOf(At(r, Obj(m), n)) == Kind(r, es, n)
  }

  /** b can be set after a: its path is not that of a nor a section a is in, and a is no value on its way. */
  ghost predicate Follows(r: Rules, a: Entry, b: Entry) {
    var p, q := Fold(r, a.path), Fold(r, b.path);
    !(q <= p) && (p <= q ==> a.value.Obj?)
  }

  ghost predicate Admissible(r: Rules, es: seq<Entry>) {
    && (forall j :: 0 <= j < |es| ==> Clean(r, es[j]))
    && (forall i, j :: 0 <= i < j < |es| ==> Follows(r, es[i], es[j]))
  }

  /** Of two entries in an admissible run at most one has a given path. */
  lemma KindAt(r: Rules, es: seq<Entry>, i: nat)
    requires Admissible(r, es) && Proper(es) && i < |es|
    ensures var p := Fold(r, es[i].path);
      if exists j :: 0 <= j < |es| && p < Fold(r, es[j].path) then es[i].value.Obj? && Kind(r, es, p) == Settings
      else Kind(r, es, p) == Value(es[i].value)
  {}

  lemma SetFollows(r: Rules, m: map<string, Json>, es: seq<Entry>, e: Entry, i: nat)
    requires Holds(r, m, es) && Admissible(r, es) && Proper(es) && Distinct(r, Obj(m))
    requires e.path != [] && !Nested(e.value)
    requires Insert(r, m, e.path, e.value).Some? && i < |es|
    ensures Follows(r, es[i], e)
  {
    var p, q := Fold(r, es[i].path), Fold(r, e.path);
    InsertWhen(r, m, e.path, e.value);
    assert ViewOf(At(r, Obj(m), q)) == Kind(r, es, q);
    assert es[i] in es;
    if p < q {
      assert q[..|p|] == p;
      KindAt(r, es, i);
      assert ViewOf(At(r, Obj(m), p)) == Kind(r, es, p);
    }
  }

  lemma KindSome(r: Rules, es: seq<Entry>, n: seq<string>) returns (i: nat)
    requires Kind(r, es, n) != Nothing
    ensures i < |es| && n <= Fold(r, es[i].path)
    ensures Kind(r, es, n).Value? ==> n == Fold(r, es[i].path) && Kind(r, es, n) == Value(es[i].value)
  {
    if Kind(r, es, n) == Settings {
      i :| 0 <= i < |es| && n < Fold(r, es[i].path);
    } else {
      i :| 0 <= i < |es| && n == Fold(r, es[i].path) && Kind(r, es, n) == Value(es[i].value);
    }
  }

  lemma NotSet(r: Rules, m: map<string, Json>, es: seq<Entry>, e: Entry) returns (i: nat)
    requires Holds(r, m, es) && Distinct(r, Obj(m)) && e.path != [] && !Nested(e.value)
    requires Insert(r, m, e.path, e.value).None?
    ensures i < |es| && !Follows(r, es[i], e)
  {
    var q := Fold(r, e.path);
    InsertWhen(r, m, e.path, e.value);
    var n := q;
    if At(r, Obj(m), q).None? {
      var k :| 0 < k < |q| && At(r, Obj(m), q[..k]).Some? && At(r, Obj(m), q[..k]).value.Leaf?;
      n := q[..k];
    }
    assert ViewOf(At(r, Obj(m), n)) == Kind(r, es, n);
    i := KindSome(r, es, n);
  }

  /** On an admissible run, the next entry can be set exactly when it follows all before. */
  lemma NextWhen(r: Rules, m: map<string, Json>, es: seq<Entry>, e: Entry)
    requires Holds(r, m, es) && Admissible(r, es) && Proper(es) && Distinct(r, Obj(m))
    requires e.path != [] && !Nested(e.value)
    ensures Insert(r, m, e.path, e.value).Some? <==> forall i :: 0 <= i < |es| ==> Follows(r, es[i], e)
  {
    if Insert(r, m, e.path, e.value).Some? {
      forall i | 0 <= i < |es| ensures Follows(r, es[i], e) { SetFollows(r, m, es, e, i); }
    } else {
      var i := NotSet(r, m, es, e);
    }
  }

  /** And what the tree then holds is what the run with it says. */
  lemma NextHolds(r: Rules, m: map<string, Json>, es: seq<Entry>, e: Entry)
    requires Holds(r, m, es) && Distinct(r, Obj(m)) && e.path != [] && !Nested(e.value)
    requires Insert(r, m, e.path, e.value).Some? && Admissible(r, es + [e]) && Proper(es)
    ensures Holds(r, Insert(r, m, e.path, e.value).value, es + [e])
  {
    var f, m' := Fold(r, e.path), Insert(r, m, e.path, e.value).value;
    forall n | n != [] ensures ViewOf(At(r, Obj(m'), n)) == Kind(r, es + [e], n) {
      InsertAt(r, m, e.path, e.value, n);
      KindNext(r, es, e, n);
    }
  }

  lemma KindNext(r: Rules, es: seq<Entry>, e: Entry, n: seq<string>)
    requires Admissible(r, es + [e]) && Proper(es) && e.path != [] && !Nested(e.value)
    ensures var f := Fold(r, e.path);
      Kind(r, es + [e], n) == if n == f then Value(e.value) else if n < f then Settings else Kind(r, es, n)
  {
    var f, all := Fold(r, e.path), es + [e];
    AdmissibleInit(r, es, e);
    assert all[|es|] == e && (forall i :: 0 <= i < |es| ==> all[i] == es[i]);
    if n == f {
      KindAt(r, all, |es|);
      forall i | 0 <= i < |es| ensures !(n < Fold(r, es[i].path)) { assert Follows(r, all[i], all[|es|]); }
    } else if i :| 0 <= i < |es| && n == Fold(r, es[i].path) {
      KindAt(r, es, i);
      KindAt(r, all, i);
    }
  }

  lemma AdmissibleInit(r: Rules, es: seq<Entry>, e: Entry)
    requires Admissible(r, es + [e])
    ensures Admissible(r, es)
    ensures Clean(r, e) && forall i :: 0 <= i < |es| ==> Follows(r, es[i], e)
  {
    var all := es + [e];
    assert all[|es|] == e && (forall i :: 0 <= i < |es| ==> all[i] == es[i]);
    forall i | 0 <= i < |es| ensures Follows(r, es[i], e) { assert Follows(r, all[i], all[|es|]); }
    forall i, j | 0 <= i < j < |es| ensures Follows(r, es[i], es[j]) { assert Follows(r, all[i], all[j]); }
    forall j | 0 <= j < |es| ensures Clean(r, es[j]) { assert Clean(r, all[j]); }
  }

  /** Setting the entries of a run one after another succeeds exactly when the run is admissible. */
  lemma {:induction false} RunWhen(r: Rules, m: map<string, Json>, es: seq<Entry>, rest: seq<Entry>)
    requires Holds(r, m, es) && Admissible(r, es) && Proper(es) && Proper(rest) && Distinct(r, Obj(m))
    ensures InsertAll(r, m, rest).Some? <==> Admissible(r, es + rest)
    ensures InsertAll(r, m, rest).Some? ==> Holds(r, InsertAll(r, m, rest).value, es + rest)
    decreases |rest|
  {
    if rest == [] {
      assert es + rest == es;
    } else {
      var e := rest[0];
      assert e in rest;
      assert es + rest == es + [e] + rest[1..];
      NextWhen(r, m, es, e);
      if Clean(r, e) && Insert(r, m, e.path, e.value).Some? {
        AdmissibleNext(r, es, e);
        NextHolds(r, m, es, e);
        InsertKeeps(r, m, e.path, e.value);
        RunWhen(r, Insert(r, m, e.path, e.value).value, es + [e], rest[1..]);
      } else if Admissible(r, es + rest) {
        AdmissibleTake(r, es + [e], rest[1..]);
        AdmissibleInit(r, es, e);
      }
    }
  }

  lemma AdmissibleNext(r: Rules, es: seq<Entry>, e: Entry)
    requires Admissible(r, es) && Clean(r, e) && forall i :: 0 <= i < |es| ==> Follows(r, es[i], e)
    ensures Admissible(r, es + [e])
  {}

  lemma {:induction false} AdmissibleTake(r: Rules, a: seq<Entry>, b: seq<Entry>)
    requires Admissible(r, a + b)
    ensures Admissible(r, a)
  {
    var all := a + b;
    assert forall i :: 0 <= i < |a| ==> all[i] == a[i];
    forall i, j | 0 <= i < j < |a| ensures Follows(r, a[i], a[j]) { assert Follows(r, all[i], all[j]); }
    forall j | 0 <= j < |a| ensures Clean(r, a[j]) { assert Clean(r, all[j]); }
  }

  // ---- What expandConfigKeys does ----

  /** No two settings share a path, and none is on the way to another. */
  ghost predicate ConflictFree(r: Rules, es: seq<Entry>) {
    forall i, j :: 0 <= i < |es| && 0 <= j < |es| && i != j ==> !(Fold(r, es[i].path) <= Fold(r, es[j].path))
  }

  ghost predicate AllClean(r: Rules, es: seq<Entry>) {
    forall j :: 0 <= j < |es| ==> Clean(r, es[j])
  }

  /** No control character, and something other than spaces between any two dots. */
  ghost predicate GoodKey(r: Rules, key: string) {
    && (forall c :: c in key ==> 0x20 <= c as int != 0x7f)
    && (forall part :: part in Text.Split(key, '.') ==> Filled(r, part))
  }

  ghost predicate Filled(r: Rules, part: string) {
    exists c :: c in part && !r.space(c)
  }

  /** Every key is good, at any depth. */
  ghost predicate GoodKeys(r: Rules, j: Json) {
    j.Obj? ==> forall k :: k in j.fields ==> GoodKey(r, k) && GoodKeys(r, j.fields[k])
  }

  lemma GoodKeyExactly(r: Rules, key: string)
    ensures GoodKey(r, key) <==> !HasControl(key) && forall part :: part in Text.Split(key, '.') ==> !Blank(r, part)
  {
    assert HasControl(key) <==> exists c :: c in key && !(0x20 <= c as int != 0x7f) by {
      assert ' ' as int == 0x20;
      if HasControl(key) {
        var i :| 0 <= i < |key| && (key[i] < ' ' || key[i] as int == 0x7f);
        assert key[i] in key;
      }
      if c :| c in key && !(0x20 <= c as int != 0x7f) {
        var i :| 0 <= i < |key| && key[i] == c;
        assert key[i] < ' ' || key[i] as int == 0x7f;
      }
    }
    forall part ensures Filled(r, part) <==> !Blank(r, part) {
      if !Blank(r, part) {
        var i :| 0 <= i < |part| && !r.space(part[i]);
        assert part[i] in part;
      }
    }
  }

  lemma PrefixedClean(r: Rules, key: string, es: seq<Entry>)
    requires es != []
    ensures AllClean(r, Prefixed(Text.Split(key, '.'), HasControl(key), es)) <==> GoodKey(r, key) && AllClean(r, es)
  {
    var parts := Text.Split(key, '.');
    GoodKeyExactly(r, key);
    forall i | 0 <= i < |es|
      ensures Clean(r, Prefixed(parts, HasControl(key), es)[i]) <==> GoodKey(r, key) && Clean(r, es[i])
    {
      PathClean(r, parts, es[i].path);
    }
    assert Clean(r, Prefixed(parts, HasControl(key), es)[0]) ==> GoodKey(r, key);
  }

  lemma PathClean(r: Rules, parts: seq<string>, path: seq<string>)
    ensures (forall i :: 0 <= i < |parts + path| ==> !Blank(r, (parts + path)[i])) <==>
      (forall part :: part in parts ==> !Blank(r, part)) && forall i :: 0 <= i < |path| ==> !Blank(r, path[i])
  {
    var all := parts + path;
    assert forall i :: 0 <= i < |path| ==> all[|parts| + i] == path[i];
    assert forall i :: 0 <= i < |parts| ==> all[i] == parts[i];
  }

  lemma {:induction false} InsideClean(r: Rules, value: Json)
    ensures AllClean(r, Inside(value)) <==> GoodKeys(r, value)
    decreases value, 2
  {
    if Nested(value) {
      EntriesClean(r, value, Text.SortSet(value.fields.Keys));
      assert forall k :: k in value.fields <==> k in Text.SortSet(value.fields.Keys);
    }
  }

  lemma {:induction false} EntriesClean(r: Rules, src: Json, keys: seq<string>)
    requires src.Obj? && forall k :: k in keys ==> k in src.fields
    ensures AllClean(r, EntriesOf(src, keys)) <==>
      forall k :: k in keys ==> GoodKey(r, k) && GoodKeys(r, src.fields[k])
    decreases src, 1, |keys|
  {
    if keys != [] {
      assert keys[0] in keys && keys == [keys[0]] + keys[1..];
      var inside := Inside(src.fields[keys[0]]);
      InsideShape(src.fields[keys[0]]);
      InsideClean(r, src.fields[keys[0]]);
      EntriesClean(r, src, keys[1..]);
      PrefixedClean(r, keys[0], inside);
      CleanConcat(r, Prefixed(Text.Split(keys[0], '.'), HasControl(keys[0]), inside), EntriesOf(src, keys[1..]));
    }
  }

  lemma CleanConcat(r: Rules, a: seq<Entry>, b: seq<Entry>)
    ensures AllClean(r, a + b) <==> AllClean(r, a) && AllClean(r, b)
  {
    var all := a + b;
    assert forall i :: 0 <= i < |b| ==> all[|a| + i] == b[i];
    assert forall i :: 0 <= i < |a| ==> all[i] == a[i];
  }

  /** A payload is well formed when all its keys are good. */
  lemma PayloadClean(r: Rules, payload: map<string, Json>)
    ensures AllClean(r, Entries(payload)) <==> GoodKeys(r, Obj(payload))
  {
    EntriesClean(r, Obj(payload), Text.SortSet(payload.Keys));
    assert forall k :: k in payload <==> k in Text.SortSet(payload.Keys);
  }

  /** out sets what es sets: the same values at the same paths, ignoring case, and nothing else. */
  ghost predicate SetsTheSame(r: Rules, es: seq<Entry>, out: map<string, Json>) {
    forall n, v :: n != [] && !Nested(v) ==>
      (At(r, Obj(out), n) == Some(v) <==> exists i :: 0 <= i < |es| && Fold(r, es[i].path) == n && es[i].value == v)
  }

  /** expandConfigKeys is the run of the payload's entries. */
  lemma ExpandRuns(r: Rules, payload: map<string, Json>)
    ensures Proper(Entries(payload))
    ensures Expand(r, payload).Ok? <==> Admissible(r, Entries(payload))
    ensures Expand(r, payload).Ok? ==>
      Holds(r, Expand(r, payload).value, Entries(payload)) && Distinct(r, Obj(Expand(r, payload).value))
  {
    var es := Entries(payload);
    var start: map<string, Json> := map[];
    MergeInserts(r, start, Obj(payload), Text.SortSet(payload.Keys), "");
    forall n: seq<string> | n != [] ensures ViewOf(At(r, Obj(start), n)) == Kind(r, [], n) {}
    RunWhen(r, start, [], es);
    assert [] + es == es;
    InsertAllKeeps(r, start, es);
  }

  lemma SameWhenConflictFree(r: Rules, es: seq<Entry>, out: map<string, Json>)
    requires Proper(es) && Admissible(r, es) && Holds(r, out, es) && ConflictFree(r, es)
    ensures SetsTheSame(r, es, out)
  {
    forall n, v | n != [] && !Nested(v)
      ensures At(r, Obj(out), n) == Some(v) <==>
        exists i :: 0 <= i < |es| && Fold(r, es[i].path) == n && es[i].value == v
    {
      assert ViewOf(At(r, Obj(out), n)) == Kind(r, es, n);
      if At(r, Obj(out), n) == Some(v) {
        var i := KindSome(r, es, n);
      }
      if i :| 0 <= i < |es| && Fold(r, es[i].path) == n && es[i].value == v {
        KindAt(r, es, i);
        assert Kind(r, es, n) == Value(v);
      }
    }
  }

  lemma ConflictFreeWhenSame(r: Rules, es: seq<Entry>, out: map<string, Json>)
    requires Proper(es) && Admissible(r, es) && Holds(r, out, es) && SetsTheSame(r, es, out)
    ensures ConflictFree(r, es)
  {
    forall i, j | 0 <= i < |es| && 0 <= j < |es| && i != j ensures !(Fold(r, es[i].path) <= Fold(r, es[j].path)) {
      var p := Fold(r, es[i].path);
      assert es[i] in es;
      assert p != [];
      assert At(r, Obj(out), p) == Some(es[i].value);
      assert ViewOf(At(r, Obj(out), p)) == Kind(r, es, p);
      if i < j { assert Follows(r, es[i], es[j]); } else { assert Follows(r, es[j], es[i]); }
    }
  }

  lemma ConflictFreeAdmissible(r: Rules, es: seq<Entry>)
    requires ConflictFree(r, es) && AllClean(r, es)
    ensures Admissible(r, es)
  {}

  /** For every payload: the result sets exactly what the payload sets, ignoring case, if and only if the payload is
      well formed and no setting of it is another or on the way to another. */
  lemma ExpandMeans(r: Rules, payload: map<string, Json>)
    ensures (Expand(r, payload).Ok? && SetsTheSame(r, Entries(payload), Expand(r, payload).value)) <==>
      (GoodKeys(r, Obj(payload)) && ConflictFree(r, Entries(payload)))
  {
    var es := Entries(payload);
    PayloadClean(r, payload);
    ExpandRuns(r, payload);
    if AllClean(r, es) && ConflictFree(r, es) {
      ConflictFreeAdmissible(r, es);
      SameWhenConflictFree(r, es, Expand(r, payload).value);
    }
    if Expand(r, payload).Ok? && SetsTheSame(r, es, Expand(r, payload).value) {
      ConflictFreeWhenSame(r, es, Expand(r, payload).value);
    }
  }

  /** A refusal for a key names a key that is not good, for the reason given; a refusal for a conflict names the
      dotted path of one of the settings, or of a section that one is in. */
  ghost predicate NamesCulprit(r: Rules, e: Error, prefix: seq<string>, es: seq<Entry>) {
    match e
    case ControlCharacter(key) => exists c :: c in key && !(0x20 <= c as int != 0x7f)
    case EmptySegment(key) => exists part :: part in Text.Split(key, '.') && !Filled(r, part)
    case SetTwice(path) => exists i :: 0 <= i < |es| && path == Text.Join(prefix + es[i].path, '.')
    case ValueAndSection(path) => exists i, k :: OnTheWay(path, prefix, es, i, k)
  }

  ghost predicate OnTheWay(path: string, prefix: seq<string>, es: seq<Entry>, i: int, k: int) {
    0 <= i < |es| && 0 < k <= |es[i].path| && path == Text.Join(prefix + es[i].path[..k], '.')
  }

  /** What leads to a level: the parts above it, none of them empty, joined with dots. */
  ghost predicate Leads(path: string, prefix: seq<string>) {
    path == Text.Join(prefix, '.') && (prefix == [] <==> path == "")
  }

  lemma {:induction false} JoinMore(prefix: seq<string>, part: string)
    requires prefix != []
    ensures Text.Join(prefix + [part], '.') == Text.Join(prefix, '.') + "." + part
  {
    var all := prefix + [part];
    assert all[1..] == prefix[1..] + [part];
    if |prefix| > 1 {
      JoinMore(prefix[1..], part);
      Text.Regroup(prefix[0] + ['.'], Text.Join(prefix[1..], '.'), "." + part);
    } else {
      assert Text.Join([part], '.') == part;
    }
  }

  lemma LeadsFurther(r: Rules, path: string, prefix: seq<string>, part: string)
    requires Leads(path, prefix) && !Blank(r, part)
    ensures Leads(Extend(path, part), prefix + [part])
  {
    if prefix != [] { JoinMore(prefix, part); } else { assert prefix + [part] == [part]; }
  }

  lemma ControlNamed(r: Rules, key: string, prefix: seq<string>, es: seq<Entry>)
    requires HasControl(key)
    ensures NamesCulprit(r, ControlCharacter(key), prefix, es)
  {
    var i :| 0 <= i < |key| && (key[i] < ' ' || key[i] as int == 0x7f);
    assert key[i] in key;
  }

  /** What is named below a part is named with the part before it. */
  lemma CulpritBelow(r: Rules, e: Error, prefix: seq<string>, part: string, es: seq<Entry>, all: seq<Entry>)
    requires NamesCulprit(r, e, prefix + [part], es)
    requires |all| == |es| && forall i :: 0 <= i < |es| ==> all[i].path == [part] + es[i].path
    ensures NamesCulprit(r, e, prefix, all)
  {
    match e
    case SetTwice(path) =>
      var i :| 0 <= i < |es| && path == Text.Join(prefix + [part] + es[i].path, '.');
      assert prefix + [part] + es[i].path == prefix + all[i].path;
    case ValueAndSection(path) =>
      var i, k :| OnTheWay(path, prefix + [part], es, i, k);
      assert prefix + [part] + es[i].path[..k] == prefix + all[i].path[..k + 1];
      assert OnTheWay(path, prefix, all, i, k + 1);
    case _ =>
  }

  lemma {:induction false} PutNamesCulprit(r: Rules, m: map<string, Json>, parts: seq<string>, value: Json,
                                           path: string, key: string, prefix: seq<string>)
    requires parts != [] && (forall part :: part in parts ==> part in Text.Split(key, '.')) && Leads(path, prefix)
    ensures var res := Put(r, m, parts, value, path, key);
      res.Err? ==> NamesCulprit(r, res.error, prefix, Prefixed(parts, false, Inside(value)))
    decreases value, 2, |parts|
  {
    var all := Prefixed(parts, false, Inside(value));
    assert parts[0] in parts;
    InsideShape(value);
    if !Blank(r, parts[0]) {
      var here, found := Extend(path, parts[0]), Named(r, m, r.fold(parts[0]));
      LeadsFurther(r, path, prefix, parts[0]);
      assert all[0].path[..1] == [parts[0]];
      assert OnTheWay(here, prefix, all, 0, 1);
      if |parts| == 1 && !Nested(value) {
        assert all[0].path == [parts[0]];
      } else if !(found.Some? && m[found.value].Leaf?) {
        var sub := if found.Some? then m[found.value].fields else map[];
        if |parts| > 1 {
          PutNamesCulprit(r, sub, parts[1..], value, here, key, prefix + [parts[0]]);
          PrefixedTwice(parts, Inside(value));
          var inner := Put(r, sub, parts[1..], value, here, key);
          if inner.Err? {
            CulpritBelow(r, inner.error, prefix, parts[0], Prefixed(parts[1..], false, Inside(value)), all);
          }
        } else {
          var keys := Text.SortSet(value.fields.Keys);
          MergeNamesCulprit(r, sub, value, keys, here, prefix + [parts[0]]);
          var inner := Merge(r, sub, value, keys, here);
          if inner.Err? { CulpritBelow(r, inner.error, prefix, parts[0], Inside(value), all); }
        }
      }
    }
  }

  lemma CulpritAmong(r: Rules, e: Error, prefix: seq<string>, es: seq<Entry>, a: seq<Entry>, b: seq<Entry>)
    requires NamesCulprit(r, e, prefix, es)
    requires |a| + |es| <= |b| && forall i :: 0 <= i < |es| ==> b[|a| + i].path == es[i].path
    ensures NamesCulprit(r, e, prefix, b)
  {
    match e
    case SetTwice(path) =>
      var i :| 0 <= i < |es| && path == Text.Join(prefix + es[i].path, '.');
      assert b[|a| + i].path == es[i].path;
    case ValueAndSection(path) =>
      var i, k :| OnTheWay(path, prefix, es, i, k);
      assert OnTheWay(path, prefix, b, |a| + i, k);
    case _ =>
  }

  lemma {:induction false} MergeNamesCulprit(r: Rules, m: map<string, Json>, src: Json, keys: seq<string>,
                                             path: string, prefix: seq<string>)
    requires src.Obj? && (forall k :: k in keys ==> k in src.fields) && Leads(path, prefix)
    ensures var res := Merge(r, m, src, keys, path);
      res.Err? ==> NamesCulprit(r, res.error, prefix, EntriesOf(src, keys))
    decreases src, 1, |keys|
  {
    if keys != [] {
      assert keys[0] in keys;
      var k, v := keys[0], src.fields[keys[0]];
      var parts := Text.Split(k, '.');
      var head, rest := Prefixed(parts, HasControl(k), Inside(v)), EntriesOf(src, keys[1..]);
      if HasControl(k) {
        ControlNamed(r, k, prefix, head + rest);
      } else {
        PutNamesCulprit(r, m, parts, v, path, k, prefix);
        var one := Put(r, m, parts, v, path, k);
        if one.Ok? {
          MergeNamesCulprit(r, one.value, src, keys[1..], path, prefix);
          var more := Merge(r, one.value, src, keys[1..], path);
          if more.Err? { CulpritAmong(r, more.error, prefix, rest, head, head + rest); }
        } else {
          CulpritAmong(r, one.error, prefix, head, [], head + rest);
        }
      }
    }
  }

  /** A payload without empty objects is accepted exactly when it is well formed and free of conflicts. */
  lemma ExpandAccepts(r: Rules, payload: map<string, Json>)
    requires forall e :: e in Entries(payload) ==> e.value.Leaf?
    ensures Expand(r, payload).Ok? <==> GoodKeys(r, Obj(payload)) && ConflictFree(r, Entries(payload))
  {
    var es := Entries(payload);
    PayloadClean(r, payload);
    ExpandRuns(r, payload);
    if AllClean(r, es) && ConflictFree(r, es) { ConflictFreeAdmissible(r, es); }
    if Admissible(r, es) {
      forall i, j | 0 <= i < |es| && 0 <= j < |es| && i != j ensures !(Fold(r, es[i].path) <= Fold(r, es[j].path)) {
        assert es[i] in es && es[j] in es;
        if i < j { assert Follows(r, es[i], es[j]); } else { assert Follows(r, es[j], es[i]); }
      }
    }
  }

  lemma {:induction false} InsertAllOneSegment(r: Rules, m: map<string, Json>, es: seq<Entry>)
    requires Proper(es) && OneSegment(Obj(m)) && forall e, p :: e in es && p in e.path ==> '.' !in p
    ensures InsertAll(r, m, es).Some? ==> OneSegment(Obj(InsertAll(r, m, es).value))
    decreases |es|
  {
    if es != [] {
      assert es[0] in es;
      InsertOneSegment(r, m, es[0].path, es[0].value);
      if Clean(r, es[0]) && Insert(r, m, es[0].path, es[0].value).Some? {
        InsertAllOneSegment(r, Insert(r, m, es[0].path, es[0].value).value, es[1..]);
      }
    }
  }

  lemma {:induction false} InsideSegments(value: Json)
    ensures forall e, p :: e in Inside(value) && p in e.path ==> '.' !in p
    decreases value, 2
  {
    if Nested(value) { EntriesSegments(value, Text.SortSet(value.fields.Keys)); }
  }

  lemma {:induction false} EntriesSegments(src: Json, keys: seq<string>)
    requires src.Obj? && forall k :: k in keys ==> k in src.fields
    ensures forall e, p :: e in EntriesOf(src, keys) && p in e.path ==> '.' !in p
    decreases src, 1, |keys|
  {
    if keys != [] {
      assert keys[0] in keys;
      var inside := Inside(src.fields[keys[0]]);
      InsideSegments(src.fields[keys[0]]);
      EntriesSegments(src, keys[1..]);
      var head := Prefixed(Text.Split(keys[0], '.'), HasControl(keys[0]), inside);
      forall e, p | e in head && p in e.path ensures '.' !in p {
        var i :| 0 <= i < |head| && head[i] == e;
        assert inside[i] in inside;
      }
    }
  }

  /** Every key of the result is one segment, and no two of one object differ only in case. */
  lemma ExpandTidies(r: Rules, payload: map<string, Json>)
    requires Expand(r, payload).Ok?
    ensures Distinct(r, Obj(Expand(r, payload).value)) && OneSegment(Obj(Expand(r, payload).value))
  {
    var start: map<string, Json> := map[];
    var keys := Text.SortSet(payload.Keys);
    ExpandRuns(r, payload);
    MergeInserts(r, start, Obj(payload), keys, "");
    EntriesSegments(Obj(payload), keys);
    InsertAllOneSegment(r, start, Entries(payload));
  }

  /** An empty object whose key sorts before a dotted key below it is accepted, and then gone: {"a": {}, "a.b": 1}. */
  lemma EmptyObjectLost(r: Rules)
    requires !r.space('a') && !r.space('b')
    ensures var payload := map["a" := Obj(map[]), "a.b" := Leaf(1)];
      Expand(r, payload).Ok? && !SetsTheSame(r, Entries(payload), Expand(r, payload).value)
  {
    var payload := map["a" := Obj(map[]), "a.b" := Leaf(1)];
    var a, b := Entry(["a"], Obj(map[]), false), Entry(["a", "b"], Leaf(1), false);
    TwoEntries(payload);
    ExpandRuns(r, payload);
    ExpandMeans(r, payload);
    OneWay(r, a, b);
    assert Admissible(r, [a, b]);
    assert Fold(r, [a, b][0].path) <= Fold(r, [a, b][1].path);
  }

  lemma OneWay(r: Rules, a: Entry, b: Entry)
    requires a == Entry(["a"], Obj(map[]), false) && b == Entry(["a", "b"], Leaf(1), false)
    requires !r.space('a') && !r.space('b')
    ensures Clean(r, a) && Clean(r, b) && Follows(r, a, b) && Fold(r, a.path) <= Fold(r, b.path)
  {
    assert "a"[0] == 'a' && "b"[0] == 'b';
    assert a.path[0] == "a" && b.path[0] == "a" && b.path[1] == "b";
    var p, q := Fold(r, a.path), Fold(r, b.path);
    assert |p| == 1 && |q| == 2 && p[0] == q[0];
  }

  lemma TwoKeys()
    ensures !HasControl("a") && Text.Split("a", '.') == ["a"]
    ensures !HasControl("a.b") && Text.Split("a.b", '.') == ["a", "b"]
    ensures Text.Increasing(["a", "a.b"])
  {
    var s := "a.b";
    assert s[0] == 'a' && s[1] == '.' && s[2] == 'b' && |s| == 3;
    Text.SplitPart("a", "b", '.');
    Text.SplitPart("b", "", '.');
    assert "a" + ['.'] + "b" == s;
    assert Text.Less("a", s) by { assert "a"[1..] == [] && s[1..] == ".b"; }
  }

  lemma TwoEntries(payload: map<string, Json>)
    requires payload == map["a" := Obj(map[]), "a.b" := Leaf(1)]
    ensures Entries(payload) == [Entry(["a"], Obj(map[]), false), Entry(["a", "b"], Leaf(1), false)]
  {
    var keys, src := ["a", "a.b"], Obj(payload);
    TwoKeys();
    Text.IncreasingUnique(keys, Text.SortSet(payload.Keys));
    LastEntry(src, "a", Entry([], Obj(map[]), false), ["a"], keys);
    LastEntry(src, "a.b", Entry([], Leaf(1), false), ["a", "b"], keys[1..]);
    assert keys[1..][1..] == [];
  }

  /** A key with a value of its own is one entry. */
  lemma LastEntry(src: Json, key: string, e: Entry, parts: seq<string>, keys: seq<string>)
    requires src.Obj? && (forall k :: k in keys ==> k in src.fields) && keys != [] && keys[0] == key
    requires key in src.fields && e == Entry([], src.fields[key], false) && !Nested(e.value)
    requires Text.Split(key, '.') == parts && !HasControl(key)
    ensures EntriesOf(src, keys) == [Entry(parts, e.value, false)] + EntriesOf(src, keys[1..])
  {
    assert parts + [] == parts;
    assert Prefixed(parts, false, [e]) == [Entry(parts, e.value, false)];
  }

  // ---- The implementation ----

  lemma PutKeepsDistinct(r: Rules, m: map<string, Json>, parts: seq<string>, value: Json, path: string, key: string)
    requires parts != [] && Distinct(r, Obj(m))
    ensures Put(r, m, parts, value, path, key).Ok? ==> Distinct(r, Obj(Put(r, m, parts, value, path, key).value))
  {
    PutInserts(r, m, parts, value, path, key);
    InsertAllKeeps(r, m, Prefixed(parts, false, Inside(value)));
  }

  /** The walk of mergeConfigKeys along one key's parts, configSection included. */
  method PutConfig(r: Rules, m: map<string, Json>, parts: seq<string>, value: Json, path: string, key: string)
    returns (res: Result<map<string, Json>>)
    requires parts != [] && Distinct(r, Obj(m))
    ensures res == Put(r, m, parts, value, path, key)
    decreases value, 2, |parts|
  {
    if Blank(r, parts[0]) { return Err(EmptySegment(key)); }
    var here := Extend(path, parts[0]);
    var found := ConfigChild(r, m, parts[0]);
    if |parts| == 1 && !Nested(value) {
      if found.Some? { return Err(SetTwice(here)); }
      return Ok(m[parts[0] := value]);
    }
    var at, section := parts[0], map[];
    if found.Some? {
      if m[found.value].Leaf? { return Err(ValueAndSection(here)); }
      at, section := found.value, m[found.value].fields;
    }
    if |parts| > 1 {
      res := PutConfig(r, section, parts[1..], value, here, key);
    } else {
      res := MergeConfigKeys(r, section, value, here);
    }
    if res.Ok? { res := Ok(m[at := Obj(res.value)]); }
  }

  method MergeConfigKeys(r: Rules, dst: map<string, Json>, src: Json, path: string)
    returns (res: Result<map<string, Json>>)
    requires Distinct(r, Obj(dst)) && src.Obj?
    ensures res == Merge(r, dst, src, Text.SortSet(src.fields.Keys), path)
    decreases src, 1
  {
    var keys := Text.SortedKeys(src.fields.Keys);
    var m := dst;
    for i := 0 to |keys|
      invariant Distinct(r, Obj(m))
      invariant Merge(r, m, src, keys[i..], path) == Merge(r, dst, src, keys, path)
    {
      var k := keys[i];
      assert k in keys && keys[i..][0] == k && keys[i..][1..] == keys[i + 1..];
      if HasControl(k) { return Err(ControlCharacter(k)); }
      var parts := Text.Split(k, '.');
      var one := PutConfig(r, m, parts, src.fields[k], path, k);
      PutKeepsDistinct(r, m, parts, src.fields[k], path, k);
      if one.Err? { return one; }
      m := one.value;
    }
    return Ok(m);
  }

  method ExpandConfigKeys(r: Rules, payload: map<string, Json>) returns (res: Result<map<string, Json>>)
    ensures res == Expand(r, payload)
    ensures !GoodKeys(r, Obj(payload)) ==> res.Err?
    ensures res.Err? ==> NamesCulprit(r, res.error, [], Entries(payload))
  {
    res := MergeConfigKeys(r, map[], Obj(payload), "");
    PayloadClean(r, payload);
    ExpandRuns(r, payload);
    MergeNamesCulprit(r, map[], Obj(payload), Text.SortSet(payload.Keys), "", []);
  }
}
