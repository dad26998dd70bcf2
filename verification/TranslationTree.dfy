/**
  The two shapes of a locale: the nested object of a locale file and the flat map from
  dotted keys to texts. An object keeps its properties in insertion order.
*/
module TranslationTree {
  import opened Collections
  import opened Text

  datatype Prop = Prop(name: string, value: Value)
  datatype Value = Leaf(text: string) | Object(props: seq<Prop>)

  type Path = seq<string>
  type Flat = seq<(string, string)>

  // ----- objects -----

  function Find(props: seq<Prop>, name: string): Option<Value>
  {
    if props == [] then None
    else if props[0].name == name then Some(props[0].value)
    else Find(props[1..], name)
  }

  /** `props[name] = value`: in place for a known name, at the end for a new one. */
  function Put(props: seq<Prop>, name: string, value: Value): seq<Prop>
  {
    if props == [] then [Prop(name, value)]
    else if props[0].name == name then [Prop(name, value)] + props[1..]
    else [props[0]] + Put(props[1..], name, value)
  }

  /** The object the descent continues in: a missing or text property is replaced. */
  function ChildProps(props: seq<Prop>, name: string): seq<Prop>
  {
    match Find(props, name)
    case Some(Object(child)) => child
    case _ => []
  }

  function SetPath(props: seq<Prop>, path: Path, text: string): seq<Prop>
    requires |path| > 0
    decreases |path|
  {
    if |path| == 1 then Put(props, path[0], Leaf(text))
    else Put(props, path[0], Object(SetPath(ChildProps(props, path[0]), path[1..], text)))
  }

  function SetNestedValue(root: seq<Prop>, dottedKey: string, text: string): seq<Prop>
  {
    SetPath(root, Split(dottedKey, '.'), text)
  }

  /** The object built by setting every entry of a flat map, in its order. */
  function Build(entries: Flat): seq<Prop>
  {
    if entries == [] then []
    else
      var last := entries[|entries| - 1];
      SetNestedValue(Build(entries[..|entries| - 1]), last.0, last.1)
  }

  // ----- flattening -----

  function FullKey(prefix: string, name: string): string
  {
    if prefix != "" then prefix + "." + name else name
  }

  /** The assignments flattening makes, in the order it makes them. */
  function Emit(props: seq<Prop>, prefix: string): Flat
  {
    if props == [] then [] else EmitProp(props[0], prefix) + Emit(props[1..], prefix)
  }

  function EmitProp(prop: Prop, prefix: string): Flat
  {
    match prop.value
    case Leaf(text) => [(FullKey(prefix, prop.name), text)]
    case Object(nested) => Emit(nested, FullKey(prefix, prop.name))
  }

  function ToMap(entries: Flat): map<string, string>
  {
    if entries == [] then map[]
    else ToMap(entries[..|entries| - 1])[entries[|entries| - 1].0 := entries[|entries| - 1].1]
  }

  function Flatten(root: seq<Prop>): map<string, string>
  {
    ToMap(Emit(root, ""))
  }

  lemma {:induction false} ToMapAppend(a: Flat, b: Flat)
    ensures ToMap(a + b) == ToMap(a) + ToMap(b)
  {
    if b == [] {
      assert a + b == a;
    } else {
      ToMapAppend(a, b[..|b| - 1]);
      assert (a + b)[..|a + b| - 1] == a + b[..|b| - 1];
    }
  }

  /** Flattening as the script runs it: one recursive walk that fills the map it is handed. */
  method FlattenTranslations(props: seq<Prop>, prefix: string, out: map<string, string>)
      returns (filled: map<string, string>)
    ensures filled == out + ToMap(Emit(props, prefix))
    decreases props
  {
    filled := out;
    for i := 0 to |props|
      invariant filled == out + ToMap(Emit(props[..i], prefix))
    {
      FlattenStep(props, i, prefix);
      MapUnionAssociative(out, ToMap(Emit(props[..i], prefix)), ToMap(EmitProp(props[i], prefix)));
      filled := FlattenProp(props[i], prefix, filled);
    }
    assert props[..|props|] == props;
  }

  method FlattenProp(prop: Prop, prefix: string, out: map<string, string>) returns (filled: map<string, string>)
    ensures filled == out + ToMap(EmitProp(prop, prefix))
    decreases prop
  {
    var fullKey := FullKey(prefix, prop.name);
    match prop.value {
      case Leaf(text) =>
        filled := out[fullKey := text];
        assert ToMap([(fullKey, text)]) == ToMap([])[fullKey := text];
      case Object(nested) =>
        filled := FlattenTranslations(nested, fullKey, out);
    }
  }

  lemma FlattenStep(props: seq<Prop>, i: nat, prefix: string)
    requires i < |props|
    ensures ToMap(Emit(props[..i + 1], prefix)) ==
            ToMap(Emit(props[..i], prefix)) + ToMap(EmitProp(props[i], prefix))
  {
    assert props[..i + 1] == props[..i] + [props[i]];
    EmitSnoc(props[..i], props[i], prefix);
    ToMapAppend(Emit(props[..i], prefix), EmitProp(props[i], prefix));
  }

  lemma {:induction false} EmitSnoc(props: seq<Prop>, last: Prop, prefix: string)
    ensures Emit(props + [last], prefix) == Emit(props, prefix) + EmitProp(last, prefix)
  {
    var all := props + [last];
    if props == [] {
      assert all[0] == last && all[1..] == [];
    } else {
      assert all[0] == props[0] && all[1..] == props[1..] + [last];
      EmitSnoc(props[1..], last, prefix);
    }
  }

  // ----- what a path of names leads to -----

  function Lookup(props: seq<Prop>, path: Path): Option<string>
    requires |path| > 0
    decreases |path|
  {
    match Find(props, path[0])
    case Some(Leaf(text)) => if |path| == 1 then Some(text) else None
    case Some(Object(nested)) => if |path| == 1 then None else Lookup(nested, path[1..])
    case None => None
  }

  lemma {:induction false} FindPut(props: seq<Prop>, name: string, value: Value, other: string)
    ensures Find(Put(props, name, value), other) == if other == name then Some(value) else Find(props, other)
  {
    if props != [] && props[0].name != name {
      FindPut(props[1..], name, value, other);
    }
  }

  /** One path leads through the other: the two cannot both hold a text. */
  predicate Comparable(p: Path, q: Path)
  {
    p <= q || q <= p
  }

  /** Setting a path destroys the texts at comparable paths and keeps every other. */
  lemma {:induction false} LookupSet(props: seq<Prop>, path: Path, text: string, other: Path)
    requires |path| > 0 && |other| > 0
    ensures Lookup(SetPath(props, path, text), other) ==
      if other == path then Some(text) else if Comparable(path, other) then None else Lookup(props, other)
    decreases |path|
  {
    var child := ChildProps(props, path[0]);
    if |path| == 1 {
      FindPut(props, path[0], Leaf(text), other[0]);
    } else {
      FindPut(props, path[0], Object(SetPath(child, path[1..], text)), other[0]);
      if other[0] == path[0] && |other| > 1 {
        LookupSet(child, path[1..], text, other[1..]);
        assert path == [path[0]] + path[1..] && other == [path[0]] + other[1..];
      }
    }
    assert Comparable(path, other) ==> path[0] == other[0];
  }

  // ----- dotted keys -----

  /** The key flattening gives to the text a path leads to. */
  function DottedKey(prefix: string, path: Path): string
    decreases |path|
  {
    if path == [] then prefix else DottedKey(FullKey(prefix, path[0]), path[1..])
  }

  predicate DotFree(path: Path)
  {
    forall name :: name in path ==> '.' !in name
  }

  lemma {:induction false} DottedKeyIsJoin(prefix: string, path: Path)
    requires prefix != ""
    ensures DottedKey(prefix, path) == Join([prefix] + path, '.')
    decreases |path|
  {
    if path == [] {
      assert [prefix] + path == [prefix];
    } else {
      DottedKeyIsJoin(FullKey(prefix, path[0]), path[1..]);
      assert ([prefix] + path)[1..] == path;
      assert ([FullKey(prefix, path[0])] + path[1..])[1..] == path[1..];
    }
  }

  /** Flattening writes a path back as it was split, unless its first name is empty. */
  lemma {:induction false} DottedKeyOfSplit(key: string)
    ensures DottedKey("", Split(key, '.')) == key <==> !(|key| > 0 && key[0] == '.')
  {
    var path := Split(key, '.');
    if path[0] != "" {
      DottedKeyIsJoin(path[0], path[1..]);
      assert [path[0]] + path[1..] == path;
      assert path[0] in path;
    } else if |path| > 1 {
      NoLeadingDot(path);
    }
  }

  lemma {:induction false} NoLeadingDot(path: Path)
    requires DotFree(path)
    ensures var key := DottedKey("", path); key == "" || key[0] != '.'
    decreases |path|
  {
    if path != [] {
      if path[0] == "" {
        NoLeadingDot(path[1..]);
      } else {
        DottedKeyIsJoin(path[0], path[1..]);
        assert path[0] in path;
      }
    }
  }

  // ----- building keeps objects tidy -----

  /** Property names are distinct within an object and free of dots. */
  predicate Tidy(props: seq<Prop>)
  {
    props == [] || (TidyProp(props[0]) && Find(props[1..], props[0].name).None? && Tidy(props[1..]))
  }

  predicate TidyProp(prop: Prop)
  {
    '.' !in prop.name && (prop.value.Object? ==> Tidy(prop.value.props))
  }

  lemma {:induction false} TidyPut(props: seq<Prop>, name: string, value: Value)
    requires Tidy(props) && TidyProp(Prop(name, value))
    ensures Tidy(Put(props, name, value))
  {
    if props != [] && props[0].name != name {
      TidyPut(props[1..], name, value);
      FindPut(props[1..], name, value, props[0].name);
    }
  }

  lemma {:induction false} TidyFind(props: seq<Prop>, name: string)
    requires Tidy(props) && Find(props, name).Some?
    ensures TidyProp(Prop(name, Find(props, name).value))
  {
    if props[0].name != name {
      TidyFind(props[1..], name);
    }
  }

  lemma {:induction false} TidySetPath(props: seq<Prop>, path: Path, text: string)
    requires Tidy(props) && |path| > 0 && DotFree(path)
    ensures Tidy(SetPath(props, path, text))
    decreases |path|
  {
    assert path[0] in path;
    if |path| == 1 {
      TidyPut(props, path[0], Leaf(text));
    } else {
      if Find(props, path[0]).Some? {
        TidyFind(props, path[0]);
      }
      TidySetPath(ChildProps(props, path[0]), path[1..], text);
      TidyPut(props, path[0], Object(SetPath(ChildProps(props, path[0]), path[1..], text)));
    }
  }

  lemma {:induction false} BuildIsTidy(entries: Flat)
    ensures Tidy(Build(entries))
  {
    if entries != [] {
      var last := entries[|entries| - 1];
      BuildIsTidy(entries[..|entries| - 1]);
      TidySetPath(Build(entries[..|entries| - 1]), Split(last.0, '.'), last.1);
    }
  }

  // ----- flattening is lookup -----
  /** Every assignment of a tidy object comes from a path that holds its text. */
  lemma {:induction false} EmitSound(props: seq<Prop>, prefix: string, entry: (string, string)) returns (path: Path)
    requires Tidy(props) && entry in Emit(props, prefix)
    ensures |path| > 0 && DotFree(path)
    ensures Lookup(props, path) == Some(entry.1) && DottedKey(prefix, path) == entry.0
    decreases props
  {
    var prop := props[0];
    if entry in EmitProp(prop, prefix) {
      match prop.value {
        case Leaf(text) =>
          path := [prop.name];
        case Object(nested) =>
          var inner := EmitSound(nested, FullKey(prefix, prop.name), entry);
          path := [prop.name] + inner;
          assert path[1..] == inner;
      }
    } else {
      path := EmitSound(props[1..], prefix, entry);
    }
  }

  /** Every text of an object is assigned. */
  lemma {:induction false} EmitComplete(props: seq<Prop>, prefix: string, path: Path)
    requires |path| > 0 && Lookup(props, path).Some?
    ensures (DottedKey(prefix, path), Lookup(props, path).value) in Emit(props, prefix)
    decreases props
  {
    var prop := props[0];
    if prop.name == path[0] {
      match prop.value {
        case Leaf(text) =>
          assert DottedKey(prefix, path) == FullKey(prefix, prop.name);
        case Object(nested) =>
          EmitComplete(nested, FullKey(prefix, prop.name), path[1..]);
      }
    } else {
      EmitComplete(props[1..], prefix, path);
    }
  }

  lemma {:induction false} ToMapMembers(entries: Flat, key: string)
    ensures key in ToMap(entries) ==> (key, ToMap(entries)[key]) in entries
    ensures forall text :: (key, text) in entries ==> key in ToMap(entries)
  {
    if entries != [] {
      var front := entries[..|entries| - 1];
      ToMapMembers(front, key);
      assert entries == front + [entries[|entries| - 1]];
    }
  }

  // ----- what building keeps -----

  /** A text in a built object was put there by an entry. */
  lemma {:induction false} BuildSound(entries: Flat, path: Path)
    requires |path| > 0 && Lookup(Build(entries), path).Some?
    ensures (Join(path, '.'), Lookup(Build(entries), path).value) in entries
    ensures Split(Join(path, '.'), '.') == path
    decreases |entries|
  {
    var front, last := entries[..|entries| - 1], entries[|entries| - 1];
    assert entries == front + [last];
    LookupSet(Build(front), Split(last.0, '.'), last.1, path);
    if path != Split(last.0, '.') {
      BuildSound(front, path);
    }
  }

  /** An entry survives the later ones as long as none of them is comparable. */
  lemma {:induction false} BuildKeeps(entries: Flat, i: nat)
    requires i < |entries|
    requires forall j :: i < j < |entries| ==> !Comparable(Split(entries[i].0, '.'), Split(entries[j].0, '.'))
    ensures Lookup(Build(entries), Split(entries[i].0, '.')) == Some(entries[i].1)
    decreases |entries|
  {
    var front, last := entries[..|entries| - 1], entries[|entries| - 1];
    LookupSet(Build(front), Split(last.0, '.'), last.1, Split(entries[i].0, '.'));
    if i < |front| {
      BuildKeeps(front, i);
    }
  }

  /** Two comparable paths cannot both hold a text. */
  lemma {:induction false} LookupExclusive(props: seq<Prop>, p: Path, q: Path)
    requires |p| > 0 && p < q
    ensures Lookup(props, p).None? || Lookup(props, q).None?
    decreases |p|
  {
    match Find(props, p[0]) {
      case Some(Object(nested)) =>
        if |p| > 1 {
          assert p[1..] < q[1..];
          LookupExclusive(nested, p[1..], q[1..]);
        }
      case _ =>
    }
  }

  // ----- nesting and flattening undo each other -----

  predicate DistinctKeys(entries: Flat)
  {
    forall i, j :: 0 <= i < j < |entries| ==> entries[i].0 != entries[j].0
  }

  predicate LeadingDot(key: string)
  {
    |key| > 0 && key[0] == '.'
  }

  /** `key` names an object on the way to `other`. */
  predicate Shadows(key: string, other: string)
  {
    key + "." <= other
  }

  /** Keys that a nested object can hold side by side. */
  predicate Nestable(entries: Flat)
  {
    && (forall e :: e in entries ==> !LeadingDot(e.0))
    && (forall e, f :: e in entries && f in entries ==> !Shadows(e.0, f.0))
  }

  lemma FlattenedKey(entries: Flat, key: string)
    requires key in Flatten(Build(entries))
    ensures !LeadingDot(key)
    ensures (forall e :: e in entries ==> !LeadingDot(e.0)) ==>
              && (key, Flatten(Build(entries))[key]) in entries
              && Lookup(Build(entries), Split(key, '.')).Some?
  {
    BuildIsTidy(entries);
    ToMapMembers(Emit(Build(entries), ""), key);
    var path := EmitSound(Build(entries), "", (key, Flatten(Build(entries))[key]));
    NoLeadingDot(path);
    BuildSound(entries, path);
    DottedKeyOfSplit(Join(path, '.'));
  }

  lemma {:induction false} NestableKeepsAll(entries: Flat)
    requires DistinctKeys(entries) && Nestable(entries)
    ensures Flatten(Build(entries)) == ToMap(entries)
  {
    var flat := Flatten(Build(entries));
    forall key | key in flat
      ensures key in ToMap(entries) && flat[key] == ToMap(entries)[key]
    {
      FlattenedKey(entries, key);
      ToMapMembers(entries, key);
    }
    forall key | key in ToMap(entries)
      ensures key in flat
    {
      ToMapMembers(entries, key);
      var i :| 0 <= i < |entries| && entries[i].0 == key;
      NestableEntrySurvives(entries, i);
    }
  }

  lemma UnshadowedIsIncomparable(a: string, b: string)
    requires a != b && !Shadows(a, b) && !Shadows(b, a)
    ensures !Comparable(Split(a, '.'), Split(b, '.'))
  {
    SplitPrefix(a, b, '.');
    SplitPrefix(b, a, '.');
    var p, q := Split(a, '.'), Split(b, '.');
    assert |p| == |q| && Comparable(p, q) ==> p == q;
    assert Join(p, '.') != Join(q, '.');
  }

  lemma {:induction false} NestableEntrySurvives(entries: Flat, i: nat)
    requires DistinctKeys(entries) && Nestable(entries) && i < |entries|
    ensures entries[i].0 in Flatten(Build(entries))
  {
    var key := entries[i].0;
    assert entries[i] in entries;
    forall j | i < j < |entries|
      ensures !Comparable(Split(key, '.'), Split(entries[j].0, '.'))
    {
      assert entries[j] in entries;
      UnshadowedIsIncomparable(key, entries[j].0);
    }
    BuildKeeps(entries, i);
    HeldTextIsFlattened(Build(entries), key);
  }

  lemma HeldTextIsFlattened(root: seq<Prop>, key: string)
    requires Lookup(root, Split(key, '.')).Some? && !LeadingDot(key)
    ensures key in Flatten(root)
  {
    DottedKeyOfSplit(key);
    EmitComplete(root, "", Split(key, '.'));
    ToMapMembers(Emit(root, ""), key);
  }

  lemma NotNestableLosesKey(entries: Flat) returns (lost: string)
    requires DistinctKeys(entries) && !Nestable(entries)
    ensures lost in ToMap(entries) && lost !in Flatten(Build(entries))
  {
    var flat := Flatten(Build(entries));
    if e :| e in entries && LeadingDot(e.0) {
      lost := e.0;
      if lost in flat {
        FlattenedKey(entries, lost);
      }
    } else {
      var e, f :| e in entries && f in entries && Shadows(e.0, f.0);
      lost := if e.0 in flat then f.0 else e.0;
      ToMapMembers(entries, f.0);
      if lost in flat {
        FlattenedKey(entries, e.0);
        FlattenedKey(entries, f.0);
        SplitPrefix(e.0, f.0, '.');
        LookupExclusive(Build(entries), Split(e.0, '.'), Split(f.0, '.'));
      }
    }
    ToMapMembers(entries, lost);
  }

  /** Nesting a flat map and flattening it again gives it back exactly for keys that can nest. */
  lemma FlattenUndoesBuild(entries: Flat)
    requires DistinctKeys(entries)
    ensures Flatten(Build(entries)) == ToMap(entries) <==> Nestable(entries)
  {
    if Nestable(entries) {
      NestableKeepsAll(entries);
    } else {
      var lost := NotNestableLosesKey(entries);
    }
  }

  // ----- building undoes flattening -----

  /** Names are not empty, and neither are nested objects. */
  predicate Compact(props: seq<Prop>)
  {
    props == [] || (CompactProp(props[0]) && Compact(props[1..]))
  }

  predicate CompactProp(prop: Prop)
  {
    prop.name != "" && (prop.value.Object? ==> prop.value.props != [] && Compact(prop.value.props))
  }

  type Texts = seq<(Path, string)>

  function Under(name: string, texts: Texts): (r: Texts)
    ensures |r| == |texts|
  {
    seq(|texts|, i requires 0 <= i < |texts| => ([name] + texts[i].0, texts[i].1))
  }

  /** The texts of an object with their paths, in the order flattening meets them. */
  function TextsOf(props: seq<Prop>): Texts
  {
    if props == [] then [] else TextsOfProp(props[0]) + TextsOf(props[1..])
  }

  function TextsOfProp(prop: Prop): Texts
  {
    match prop.value
    case Leaf(text) => [([prop.name], text)]
    case Object(nested) => Under(prop.name, TextsOf(nested))
  }

  predicate Proper(texts: Texts)
  {
    forall i :: 0 <= i < |texts| ==> |texts[i].0| > 0 && texts[i].0[0] != "" && DotFree(texts[i].0)
  }

  function Onto(root: seq<Prop>, texts: Texts): seq<Prop>
    requires Proper(texts)
  {
    if texts == [] then root
    else SetPath(Onto(root, texts[..|texts| - 1]), texts[|texts| - 1].0, texts[|texts| - 1].1)
  }

  lemma {:induction false} TextsAreProper(props: seq<Prop>)
    requires Tidy(props) && Compact(props)
    ensures Proper(TextsOf(props))
    ensures props != [] ==> TextsOf(props) != []
  {
    if props != [] {
      TextsAreProper(props[1..]);
      if props[0].value.Object? {
        TextsAreProper(props[0].value.props);
      }
    }
  }

  lemma {:induction false} OntoAppend(root: seq<Prop>, a: Texts, b: Texts)
    requires Proper(a) && Proper(b)
    ensures Proper(a + b) && Onto(root, a + b) == Onto(Onto(root, a), b)
  {
    if b == [] {
      assert a + b == a;
    } else {
      OntoAppend(root, a, b[..|b| - 1]);
      assert (a + b)[..|a + b| - 1] == a + b[..|b| - 1];
    }
  }

  lemma {:induction false} PutNew(props: seq<Prop>, name: string, value: Value)
    requires Find(props, name).None?
    ensures Put(props, name, value) == props + [Prop(name, value)]
  {
    if props != [] {
      PutNew(props[1..], name, value);
    }
  }

  lemma {:induction false} PutLast(props: seq<Prop>, name: string, before: Value, value: Value)
    requires Find(props, name).None?
    ensures Find(props + [Prop(name, before)], name) == Some(before)
    ensures Put(props + [Prop(name, before)], name, value) == props + [Prop(name, value)]
  {
    var all := props + [Prop(name, before)];
    if props != [] {
      assert all[1..] == props[1..] + [Prop(name, before)];
      PutLast(props[1..], name, before, value);
    } else {
      assert all[1..] == [];
    }
  }

  /** Setting paths that all start with a new name grows one object at the end. */
  lemma {:induction false} OntoUnder(root: seq<Prop>, name: string, texts: Texts)
    requires Find(root, name).None? && name != "" && '.' !in name
    requires Proper(texts) && |texts| > 0
    ensures Proper(Under(name, texts))
    ensures Onto(root, Under(name, texts)) == root + [Prop(name, Object(Onto([], texts)))]
  {
    var front, last := texts[..|texts| - 1], texts[|texts| - 1];
    var under := Under(name, texts);
    assert under[..|under| - 1] == Under(name, front);
    assert under[|under| - 1].0[1..] == last.0;
    if front == [] {
      PutNew(root, name, Object(SetPath([], last.0, last.1)));
    } else {
      OntoUnder(root, name, front);
      PutLast(root, name, Object(Onto([], front)), Object(Onto([], texts)));
    }
  }

  lemma {:induction false} OntoRestores(root: seq<Prop>, props: seq<Prop>)
    requires Tidy(props) && Compact(props)
    requires forall i :: 0 <= i < |props| ==> Find(root, props[i].name).None?
    ensures Proper(TextsOf(props)) && Onto(root, TextsOf(props)) == root + props
    decreases props
  {
    TextsAreProper(props);
    if props != [] {
      var prop, rest := props[0], props[1..];
      OntoProp(root, prop);
      TextsAreProper(rest);
      OntoAppend(root, TextsOfProp(prop), TextsOf(rest));
      forall i | 0 <= i < |rest|
        ensures Find(root + [prop], rest[i].name).None?
      {
        assert rest[i] == props[i + 1];
        NewNames(root, prop, rest, i);
      }
      OntoRestores(root + [prop], rest);
      assert root + [prop] + rest == root + props;
    }
  }

  lemma {:induction false} OntoProp(root: seq<Prop>, prop: Prop)
    requires TidyProp(prop) && CompactProp(prop) && Find(root, prop.name).None?
    ensures Proper(TextsOfProp(prop)) && Onto(root, TextsOfProp(prop)) == root + [prop]
    decreases prop
  {
    match prop.value {
      case Leaf(text) =>
        PutNew(root, prop.name, prop.value);
        assert Onto(root, TextsOfProp(prop)[..0]) == root;
      case Object(nested) =>
        TextsAreProper(nested);
        OntoRestores([], nested);
        OntoUnder(root, prop.name, TextsOf(nested));
        assert [] + nested == nested;
    }
  }

  lemma {:induction false} NewNames(root: seq<Prop>, prop: Prop, rest: seq<Prop>, i: nat)
    requires i < |rest| && Find(rest, prop.name).None? && Find(root, rest[i].name).None?
    ensures Find(root + [prop], rest[i].name).None?
  {
    FindSnoc(root, prop, rest[i].name);
    FindIndex(rest, i);
  }

  lemma {:induction false} FindSnoc(root: seq<Prop>, prop: Prop, name: string)
    requires Find(root, name).None?
    ensures Find(root + [prop], name) == if prop.name == name then Some(prop.value) else None
  {
    if root == [] {
      assert root + [prop] == [prop] && [prop][1..] == [];
    } else {
      assert (root + [prop])[1..] == root[1..] + [prop];
      FindSnoc(root[1..], prop, name);
    }
  }

  lemma {:induction false} FindIndex(props: seq<Prop>, i: nat)
    requires i < |props|
    ensures Find(props, props[i].name).Some?
  {
    if i > 0 {
      FindIndex(props[1..], i - 1);
    }
  }

  function Dotted(texts: Texts, prefix: string): (r: Flat)
    ensures |r| == |texts|
  {
    seq(|texts|, i requires 0 <= i < |texts| => (DottedKey(prefix, texts[i].0), texts[i].1))
  }

  lemma {:induction false} EmitIsDotted(props: seq<Prop>, prefix: string)
    ensures Emit(props, prefix) == Dotted(TextsOf(props), prefix)
    decreases props
  {
    if props != [] {
      EmitPropIsDotted(props[0], prefix);
      EmitIsDotted(props[1..], prefix);
    }
  }

  lemma {:induction false} EmitPropIsDotted(prop: Prop, prefix: string)
    ensures EmitProp(prop, prefix) == Dotted(TextsOfProp(prop), prefix)
    decreases prop
  {
    match prop.value {
      case Leaf(text) =>
        assert DottedKey(prefix, [prop.name]) == DottedKey(FullKey(prefix, prop.name), []);
      case Object(nested) =>
        EmitIsDotted(nested, FullKey(prefix, prop.name));
    }
  }

  lemma {:induction false} BuildIsOnto(texts: Texts)
    requires Proper(texts)
    ensures Build(Dotted(texts, "")) == Onto([], texts)
  {
    if texts != [] {
      var front, last := texts[..|texts| - 1], texts[|texts| - 1];
      var dotted := Dotted(texts, "");
      assert dotted[..|dotted| - 1] == Dotted(front, "");
      BuildIsOnto(front);
      DottedKeyIsJoin(last.0[0], last.0[1..]);
      assert [last.0[0]] + last.0[1..] == last.0;
      SplitJoin(last.0, '.');
    }
  }

  /** Flattening an object and nesting it again gives the same object, property order included. */
  lemma BuildUndoesFlatten(root: seq<Prop>)
    requires Tidy(root) && Compact(root)
    ensures Build(Emit(root, "")) == root
  {
    TextsAreProper(root);
    EmitIsDotted(root, "");
    BuildIsOnto(TextsOf(root));
    OntoRestores([], root);
    assert [] + root == root;
  }
}
