/** Hot reload of a configuration: diffing two trees of named fields, and taking the reloadable leaves of the new one.
    Which paths are reloadable is a parameter. */
module HotReload {

  import opened Options
  import opened Sequences
  import opened Splitting

  /** A configuration value: a leaf, compared as a whole, or a struct with its fields in declaration order. */
  datatype Tree<V> = Leaf(value: V) | Struct(fields: Fields<V>)
  datatype Fields<V> = Nil | Cons(goName: string, tag: string, exported: bool, node: Tree<V>, rest: Fields<V>)

  datatype Change<V> = Change(field: string, oldValue: V, newValue: V, reloadable: bool)

  // ---- names and paths ----

  /** A field goes by the first part of its tag, when that says anything. */
  function Name(goName: string, tag: string): string {
    var part := Before(tag, ',');
    if part != "" && part != "-" then part else goName
  }

  /** Fields that take part in a diff. */
  predicate Visible<V>(f: Fields<V>)
    requires f.Cons?
  {
    f.exported && f.tag != "-"
  }

  function Under(prefix: string, name: string): string {
    if prefix == "" then name else prefix + ['.'] + name
  }

  /** The dotted form of a path. */
  function Dotted(path: seq<string>): string {
    if path == [] then "" else Under(Dotted(path[..|path| - 1]), path[|path| - 1])
  }

  predicate IsName(s: string) {
    s != "" && '.' !in s
  }

  /** Splitting undoes joining. */
  lemma {:induction false} SplitDotted(path: seq<string>)
    requires path != [] && forall s | s in path :: IsName(s)
    ensures Split(Dotted(path), '.') == path && Dotted(path) != ""
  {
    var front, last := path[..|path| - 1], path[|path| - 1];
    assert last in path;
    if front == [] {
      SplitStep(last, '.', "");
    } else {
      SplitDotted(front);
      SplitPush(Dotted(front), '.', last);
    }
  }

  lemma DottedPush(path: seq<string>, name: string)
    ensures Dotted(path + [name]) == Under(Dotted(path), name)
  {
    assert (path + [name])[..|path|] == path;
  }

  // ---- shapes ----

  ghost predicate SameShape<V>(a: Tree<V>, b: Tree<V>) {
    match (a, b)
    case (Leaf(_), Leaf(_)) => true
    case (Struct(fs), Struct(gs)) => SameFields(fs, gs)
    case _ => false
  }

  /** Two values of one struct type. */
  ghost predicate SameFields<V>(a: Fields<V>, b: Fields<V>) {
    match (a, b)
    case (Nil, Nil) => true
    case (Cons(n, t, e, x, fs), Cons(m, u, d, y, gs)) =>
      n == m && t == u && e == d && SameShape(x, y) && SameFields(fs, gs)
    case _ => false
  }

  function NameOf<V>(f: Fields<V>): string
    requires f.Cons?
  {
    Name(f.goName, f.tag)
  }

  /** The names of a struct's exported fields. */
  function Names<V>(f: Fields<V>): set<string> {
    match f
    case Nil => {}
    case Cons(_, _, exported, _, rest) => Names(rest) + if exported then {NameOf(f)} else {}
  }

  ghost predicate WellNamed<V>(t: Tree<V>) {
    t.Struct? ==> WellNamedFields(t.fields)
  }

  /** Exported siblings have distinct names without dots, all the way down. */
  ghost predicate WellNamedFields<V>(f: Fields<V>) {
    f.Cons? ==>
      && (f.exported ==> IsName(NameOf(f)) && NameOf(f) !in Names(f.rest))
      && (Visible(f) ==> WellNamed(f.node))
      && WellNamedFields(f.rest)
  }

  // ---- diff ----

  function Diff<V(==)>(reloadable: string -> bool, a: Tree<V>, b: Tree<V>, prefix: string): seq<Change<V>>
    requires SameShape(a, b)
  {
    match a
    case Leaf(v) => if v != b.value then [Change(prefix, v, b.value, reloadable(prefix))] else []
    case Struct(fs) => DiffFields(reloadable, fs, b.fields, prefix)
  }

  function DiffFields<V(==)>(reloadable: string -> bool, a: Fields<V>, b: Fields<V>, prefix: string): seq<Change<V>>
    requires SameFields(a, b)
  {
    if a.Nil? then []
    else if !Visible(a) then DiffFields(reloadable, a.rest, b.rest, prefix)
    else Diff(reloadable, a.node, b.node, Under(prefix, NameOf(a))) + DiffFields(reloadable, a.rest, b.rest, prefix)
  }

  /** The loop over the fields of two structs. */
  method DiffStructs<V(==)>(reloadable: string -> bool, a: Tree<V>, b: Tree<V>, prefix: string)
    returns (changes: seq<Change<V>>)
    requires SameShape(a, b)
    ensures changes == Diff(reloadable, a, b, prefix)
    decreases a
  {
    changes := [];
    if a.Leaf? {
      if a.value != b.value {
        changes := [Change(prefix, a.value, b.value, reloadable(prefix))];
      }
      return;
    }
    var fs, gs := a.fields, b.fields;
    while fs.Cons?
      invariant SameFields(fs, gs)
      invariant changes + DiffFields(reloadable, fs, gs, prefix) == Diff(reloadable, a, b, prefix)
      invariant fs == a.fields || fs < a.fields
      decreases fs
    {
      if Visible(fs) {
        var nested := DiffStructs(reloadable, fs.node, gs.node, Under(prefix, NameOf(fs)));
        Regroup(changes, nested, DiffFields(reloadable, fs.rest, gs.rest, prefix));
        changes := changes + nested;
      }
      fs, gs := fs.rest, gs.rest;
    }
  }

  // ---- applying one path ----

  /** A value after copying the part at a path: the whole of it, or a field further down. */
  function Copied<V>(target: Tree<V>, source: Tree<V>, path: seq<string>): Tree<V>
    decreases source, 1
  {
    if path == [] then source else SetNested(target, source, path)
  }

  /** Copies the field at a path from source to target; a path that leads nowhere changes nothing. */
  function SetNested<V>(target: Tree<V>, source: Tree<V>, path: seq<string>): Tree<V>
    requires path != []
    decreases source, 0
  {
    if target.Struct? && source.Struct? then Struct(SetField(target.fields, source.fields, path)) else target
  }

  function SetField<V>(target: Fields<V>, source: Fields<V>, path: seq<string>): Fields<V>
    requires path != []
    decreases source, 0
  {
    if target.Nil? || source.Nil? then target
    else if source.exported && NameOf(source) == path[0] then
      target.(node := Copied(target.node, source.node, path[1..]))
    else target.(rest := SetField(target.rest, source.rest, path))
  }

  // ---- what is meant ----

  /** The tree that takes each visible leaf from `b` when its path is reloadable, and all else from `a`. */
  function Merged<V>(reloadable: string -> bool, a: Tree<V>, b: Tree<V>, path: seq<string>): Tree<V>
    requires SameShape(a, b)
  {
    match a
    case Leaf(v) => if reloadable(Dotted(path)) then b else a
    case Struct(fs) => Struct(MergedFields(reloadable, fs, b.fields, path))
  }

  function MergedFields<V>(reloadable: string -> bool, a: Fields<V>, b: Fields<V>, path: seq<string>): Fields<V>
    requires SameFields(a, b)
  {
    if a.Nil? then a
    else
      var node := if Visible(a) then Merged(reloadable, a.node, b.node, path + [NameOf(a)]) else a.node;
      a.(node := node, rest := MergedFields(reloadable, a.rest, b.rest, path))
  }

  /** The visible leaf at a path, if there is one. */
  function LeafAt<V>(t: Tree<V>, path: seq<string>): Option<V> {
    match t
    case Leaf(v) => if path == [] then Some(v) else None
    case Struct(fs) => LeafIn(fs, path)
  }

  function LeafIn<V>(f: Fields<V>, path: seq<string>): Option<V> {
    if f.Nil? || path == [] then None
    else if Visible(f) && NameOf(f) == path[0] then LeafAt(f.node, path[1..])
    else LeafIn(f.rest, path)
  }

  /** The leaf at every path comes from the new tree if that path is reloadable and from the old one if not. */
  lemma {:induction false} MergedLeaf<V>(reloadable: string -> bool, a: Tree<V>, b: Tree<V>, above: seq<string>,
                                         path: seq<string>)
    requires SameShape(a, b)
    ensures LeafAt(Merged(reloadable, a, b, above), path)
         == if reloadable(Dotted(above + path)) then LeafAt(b, path) else LeafAt(a, path)
  {
    if a.Struct? {
      MergedLeafIn(reloadable, a.fields, b.fields, above, path);
    } else if path == [] {
      assert above + path == above;
    }
  }

  lemma {:induction false} MergedLeafIn<V>(reloadable: string -> bool, a: Fields<V>, b: Fields<V>, above: seq<string>,
                                           path: seq<string>)
    requires SameFields(a, b)
    ensures LeafIn(MergedFields(reloadable, a, b, above), path)
         == if reloadable(Dotted(above + path)) then LeafIn(b, path) else LeafIn(a, path)
  {
    if a.Cons? && path != [] {
      if Visible(a) && NameOf(a) == path[0] {
        MergedLeaf(reloadable, a.node, b.node, above + [path[0]], path[1..]);
        assert above + [path[0]] + path[1..] == above + path;
      } else {
        MergedLeafIn(reloadable, a.rest, b.rest, above, path);
      }
    }
  }

  function Skipped<V>(changes: seq<Change<V>>): seq<Change<V>> {
    if changes == [] then []
    else Skipped(changes[..|changes| - 1]) + if changes[|changes| - 1].reloadable then [] else [changes[|changes| - 1]]
  }

  function Reloaded<V>(changes: seq<Change<V>>): seq<Change<V>> {
    if changes == [] then []
    else Reloaded(changes[..|changes| - 1]) + if changes[|changes| - 1].reloadable then [changes[|changes| - 1]] else []
  }

  function Paths<V>(changes: seq<Change<V>>): seq<string> {
    seq(|changes|, i requires 0 <= i < |changes| => changes[i].field)
  }

  lemma {:induction false} SkippedAppend<V>(a: seq<Change<V>>, b: seq<Change<V>>)
    ensures Skipped(a + b) == Skipped(a) + Skipped(b)
  {
    if b == [] {
      assert a + b == a;
    } else {
      var last := b[|b| - 1];
      SkippedAppend(a, b[..|b| - 1]);
      LastOfBoth(a, b);
      Regroup(Skipped(a), Skipped(b[..|b| - 1]), if last.reloadable then [] else [last]);
    }
  }

  lemma {:induction false} ReloadedAppend<V>(a: seq<Change<V>>, b: seq<Change<V>>)
    ensures Reloaded(a + b) == Reloaded(a) + Reloaded(b)
  {
    if b == [] {
      assert a + b == a;
    } else {
      var last := b[|b| - 1];
      ReloadedAppend(a, b[..|b| - 1]);
      LastOfBoth(a, b);
      Regroup(Reloaded(a), Reloaded(b[..|b| - 1]), if last.reloadable then [last] else []);
    }
  }

  /** Merging keeps the shape, and what still differs from the new tree is exactly what was skipped. */
  lemma {:induction false} MergedDiff<V>(reloadable: string -> bool, a: Tree<V>, b: Tree<V>, path: seq<string>)
    requires SameShape(a, b)
    ensures SameShape(Merged(reloadable, a, b, path), b)
    ensures Diff(reloadable, Merged(reloadable, a, b, path), b, Dotted(path))
            == Skipped(Diff(reloadable, a, b, Dotted(path)))
  {
    if a.Struct? {
      MergedFieldsDiff(reloadable, a.fields, b.fields, path);
    } else {
      var d := Diff(reloadable, a, b, Dotted(path));
      assert |d| == 1 ==> d[..0] == [] && Skipped(d) == if d[0].reloadable then [] else [d[0]];
    }
  }

  lemma {:induction false} MergedFieldsDiff<V>(reloadable: string -> bool, a: Fields<V>, b: Fields<V>,
                                               path: seq<string>)
    requires SameFields(a, b)
    ensures SameFields(MergedFields(reloadable, a, b, path), b)
    ensures DiffFields(reloadable, MergedFields(reloadable, a, b, path), b, Dotted(path))
         == Skipped(DiffFields(reloadable, a, b, Dotted(path)))
  {
    if a.Cons? {
      MergedFieldsDiff(reloadable, a.rest, b.rest, path);
      var later := DiffFields(reloadable, a.rest, b.rest, Dotted(path));
      if Visible(a) {
        var name := NameOf(a);
        MergedDiff(reloadable, a.node, b.node, path + [name]);
        DottedPush(path, name);
        SkippedAppend(Diff(reloadable, a.node, b.node, Under(Dotted(path), name)), later);
      }
    }
  }

  /** Merging keeps the names. */
  lemma {:induction false} MergedNames<V>(reloadable: string -> bool, a: Tree<V>, b: Tree<V>, path: seq<string>)
    requires SameShape(a, b) && WellNamed(a)
    ensures WellNamed(Merged(reloadable, a, b, path)) && Merged(reloadable, a, b, path).Struct? == a.Struct?
  {
    if a.Struct? {
      MergedFieldNames(reloadable, a.fields, b.fields, path);
    }
  }

  lemma {:induction false} MergedFieldNames<V>(reloadable: string -> bool, a: Fields<V>, b: Fields<V>,
                                               path: seq<string>)
    requires SameFields(a, b) && WellNamedFields(a)
    ensures WellNamedFields(MergedFields(reloadable, a, b, path))
    ensures Names(MergedFields(reloadable, a, b, path)) == Names(a)
  {
    if a.Cons? {
      MergedFieldNames(reloadable, a.rest, b.rest, path);
      if Visible(a) {
        MergedNames(reloadable, a.node, b.node, path + [NameOf(a)]);
      }
    }
  }

  /** Merging twice changes nothing. */
  lemma {:induction false} MergedTwice<V>(reloadable: string -> bool, a: Tree<V>, b: Tree<V>, path: seq<string>)
    requires SameShape(a, b)
    ensures SameShape(Merged(reloadable, a, b, path), b)
    ensures Merged(reloadable, Merged(reloadable, a, b, path), b, path) == Merged(reloadable, a, b, path)
  {
    if a.Struct? {
      MergedFieldsTwice(reloadable, a.fields, b.fields, path);
    }
  }

  lemma {:induction false} MergedFieldsTwice<V>(reloadable: string -> bool, a: Fields<V>, b: Fields<V>,
                                                path: seq<string>)
    requires SameFields(a, b)
    ensures SameFields(MergedFields(reloadable, a, b, path), b)
    ensures MergedFields(reloadable, MergedFields(reloadable, a, b, path), b, path)
            == MergedFields(reloadable, a, b, path)
  {
    if a.Cons? {
      MergedFieldsTwice(reloadable, a.rest, b.rest, path);
      if Visible(a) {
        MergedTwice(reloadable, a.node, b.node, path + [NameOf(a)]);
      }
    }
  }

  // ---- applying all paths ----

  /** The paths a hot reload copies, below a path. */
  function Steps<V(==)>(reloadable: string -> bool, a: Tree<V>, b: Tree<V>, path: seq<string>): seq<seq<string>>
    requires SameShape(a, b)
  {
    match a
    case Leaf(v) => if v != b.value && reloadable(Dotted(path)) then [[]] else []
    case Struct(fs) => FieldSteps(reloadable, fs, b.fields, path)
  }

  function FieldSteps<V(==)>(reloadable: string -> bool, a: Fields<V>, b: Fields<V>,
                             path: seq<string>): seq<seq<string>>
    requires SameFields(a, b)
  {
    if a.Nil? then []
    else if !Visible(a) then FieldSteps(reloadable, a.rest, b.rest, path)
    else Prefixed(NameOf(a), Steps(reloadable, a.node, b.node, path + [NameOf(a)]))
         + FieldSteps(reloadable, a.rest, b.rest, path)
  }

  function Prefixed(name: string, paths: seq<seq<string>>): (r: seq<seq<string>>)
    ensures |r| == |paths| && forall i | 0 <= i < |r| :: r[i] == [name] + paths[i]
  {
    seq(|paths|, i requires 0 <= i < |paths| => [name] + paths[i])
  }

  /** Copying along each path in turn. */
  function CopyAll<V>(target: Tree<V>, source: Tree<V>, paths: seq<seq<string>>): Tree<V> {
    if paths == [] then target else Copied(CopyAll(target, source, paths[..|paths| - 1]), source, paths[|paths| - 1])
  }

  ghost predicate NonEmpty(paths: seq<seq<string>>) {
    forall i | 0 <= i < |paths| :: paths[i] != []
  }

  function SetAll<V>(target: Fields<V>, source: Fields<V>, paths: seq<seq<string>>): Fields<V>
    requires NonEmpty(paths)
  {
    if paths == [] then target else SetField(SetAll(target, source, paths[..|paths| - 1]), source, paths[|paths| - 1])
  }

  lemma {:induction false} CopyAllIsSetAll<V>(target: Fields<V>, source: Fields<V>, paths: seq<seq<string>>)
    requires NonEmpty(paths)
    ensures CopyAll(Struct(target), Struct(source), paths) == Struct(SetAll(target, source, paths))
  {
    if paths != [] {
      CopyAllIsSetAll(target, source, paths[..|paths| - 1]);
      var last := paths[|paths| - 1];
      var before := SetAll(target, source, paths[..|paths| - 1]);
      assert Copied(Struct(before), Struct(source), last) == SetNested(Struct(before), Struct(source), last);
    }
  }

  lemma {:induction false} SetAllAppend<V>(target: Fields<V>, source: Fields<V>, p: seq<seq<string>>,
                                           q: seq<seq<string>>)
    requires NonEmpty(p) && NonEmpty(q)
    ensures NonEmpty(p + q) && SetAll(target, source, p + q) == SetAll(SetAll(target, source, p), source, q)
  {
    if q == [] {
      assert p + q == p;
    } else {
      SetAllAppend(target, source, p, q[..|q| - 1]);
      assert (p + q)[..|p + q| - 1] == p + q[..|q| - 1];
    }
  }

  /** Paths that start with the first field's name work inside that field. */
  lemma {:induction false} SetAllHead<V>(target: Fields<V>, source: Fields<V>, paths: seq<seq<string>>)
    requires target.Cons? && source.Cons? && source.exported
    ensures NonEmpty(Prefixed(NameOf(source), paths))
    ensures SetAll(target, source, Prefixed(NameOf(source), paths))
         == target.(node := CopyAll(target.node, source.node, paths))
  {
    if paths != [] {
      var rest, last := paths[..|paths| - 1], paths[|paths| - 1];
      SetAllHead(target, source, rest);
      var p := Prefixed(NameOf(source), paths);
      assert p[..|p| - 1] == Prefixed(NameOf(source), rest);
      assert p[|p| - 1][1..] == last;
    }
  }

  /** Every path starts with one of the names. */
  ghost predicate StartIn(paths: seq<seq<string>>, names: set<string>) {
    forall i | 0 <= i < |paths| :: paths[i] != [] && paths[i][0] in names
  }

  /** Paths that start with other names work on the other fields. */
  lemma {:induction false} SetAllTail<V>(target: Fields<V>, source: Fields<V>, paths: seq<seq<string>>,
                                         names: set<string>)
    requires target.Cons? && source.Cons? && StartIn(paths, names)
    requires source.exported ==> NameOf(source) !in names
    ensures NonEmpty(paths) && SetAll(target, source, paths) == target.(rest := SetAll(target.rest, source.rest, paths))
  {
    if paths != [] {
      SetAllTail(target, source, paths[..|paths| - 1], names);
    }
  }

  lemma {:induction false} StepsStart<V>(reloadable: string -> bool, a: Fields<V>, b: Fields<V>, path: seq<string>)
    requires SameFields(a, b)
    ensures StartIn(FieldSteps(reloadable, a, b, path), Names(a)) && Names(a) == Names(b)
  {
    if a.Cons? {
      StepsStart(reloadable, a.rest, b.rest, path);
    }
  }

  /** Copying the reloadable changes one by one gives the merged tree. */
  lemma {:induction false} CopyingMerges<V>(reloadable: string -> bool, a: Tree<V>, b: Tree<V>, path: seq<string>)
    requires SameShape(a, b) && WellNamed(a)
    ensures CopyAll(a, b, Steps(reloadable, a, b, path)) == Merged(reloadable, a, b, path)
  {
    if a.Struct? {
      SettingMerges(reloadable, a.fields, b.fields, path);
      StepsStart(reloadable, a.fields, b.fields, path);
      CopyAllIsSetAll(a.fields, b.fields, FieldSteps(reloadable, a.fields, b.fields, path));
    } else {
      var steps := Steps(reloadable, a, b, path);
      assert |steps| == 1 ==> steps[..0] == [];
    }
  }

  lemma {:induction false} SettingMerges<V>(reloadable: string -> bool, a: Fields<V>, b: Fields<V>, path: seq<string>)
    requires SameFields(a, b) && WellNamedFields(a)
    ensures NonEmpty(FieldSteps(reloadable, a, b, path))
    ensures SetAll(a, b, FieldSteps(reloadable, a, b, path)) == MergedFields(reloadable, a, b, path)
  {
    if a.Cons? {
      var later := FieldSteps(reloadable, a.rest, b.rest, path);
      SettingMerges(reloadable, a.rest, b.rest, path);
      StepsStart(reloadable, a.rest, b.rest, path);
      if Visible(a) {
        var steps := Steps(reloadable, a.node, b.node, path + [NameOf(a)]);
        var node := CopyAll(a.node, b.node, steps);
        CopyingMerges(reloadable, a.node, b.node, path + [NameOf(a)]);
        SetAllHead(a, b, steps);
        SetAllTail(a.(node := node), b, later, Names(b.rest));
        SetAllAppend(a, b, Prefixed(NameOf(a), steps), later);
      } else {
        SetAllTail(a, b, later, Names(b.rest));
      }
    }
  }

  // ---- from dotted paths to steps ----

  ghost predicate AreNames(path: seq<string>) {
    forall i | 0 <= i < |path| :: IsName(path[i])
  }

  /** A change names a step below a path. */
  ghost predicate NamesStep<V>(c: Change<V>, path: seq<string>, step: seq<string>) {
    c.field == Dotted(path + step) && AreNames(step)
  }

  /** Changes name steps one to one. */
  ghost predicate Describe<V>(changes: seq<Change<V>>, path: seq<string>, steps: seq<seq<string>>) {
    |changes| == |steps| && forall i | 0 <= i < |steps| :: NamesStep(changes[i], path, steps[i])
  }

  lemma DescribePrefixed<V>(changes: seq<Change<V>>, path: seq<string>, name: string, steps: seq<seq<string>>)
    requires Describe(changes, path + [name], steps) && IsName(name)
    ensures Describe(changes, path, Prefixed(name, steps))
  {
    forall i | 0 <= i < |steps| ensures NamesStep(changes[i], path, Prefixed(name, steps)[i]) {
      assert NamesStep(changes[i], path + [name], steps[i]);
      assert path + [name] + steps[i] == path + ([name] + steps[i]);
    }
  }

  lemma DescribeAppend<V>(c: seq<Change<V>>, d: seq<Change<V>>, path: seq<string>, p: seq<seq<string>>,
                          q: seq<seq<string>>)
    requires Describe(c, path, p) && Describe(d, path, q)
    ensures Describe(c + d, path, p + q)
  {
    forall i | 0 <= i < |p + q| ensures NamesStep((c + d)[i], path, (p + q)[i]) {
      assert if i < |p| then NamesStep(c[i], path, p[i]) else NamesStep(d[i - |p|], path, q[i - |p|]);
    }
  }

  lemma DescribeMore<V>(here: seq<Change<V>>, later: seq<Change<V>>, path: seq<string>, name: string,
                        p: seq<seq<string>>, q: seq<seq<string>>)
    requires Describe(Reloaded(here), path + [name], p) && Describe(Reloaded(later), path, q) && IsName(name)
    ensures Describe(Reloaded(here + later), path, Prefixed(name, p) + q)
  {
    DescribePrefixed(Reloaded(here), path, name, p);
    ReloadedAppend(here, later);
    DescribeAppend(Reloaded(here), Reloaded(later), path, Prefixed(name, p), q);
  }

  /** The reloadable changes name exactly the steps to copy, in order. */
  lemma {:induction false} ReloadedAreSteps<V>(reloadable: string -> bool, a: Tree<V>, b: Tree<V>, path: seq<string>)
    requires SameShape(a, b) && WellNamed(a)
    ensures Describe(Reloaded(Diff(reloadable, a, b, Dotted(path))), path, Steps(reloadable, a, b, path))
  {
    if a.Struct? {
      ReloadedAreFieldSteps(reloadable, a.fields, b.fields, path);
    } else {
      ReloadedLeafIsStep(reloadable, a, b, path);
    }
  }

  lemma ReloadedLeafIsStep<V>(reloadable: string -> bool, a: Tree<V>, b: Tree<V>, path: seq<string>)
    requires a.Leaf? && b.Leaf?
    ensures Describe(Reloaded(Diff(reloadable, a, b, Dotted(path))), path, Steps(reloadable, a, b, path))
  {
    if a.value != b.value {
      var c := Change(Dotted(path), a.value, b.value, reloadable(Dotted(path)));
      ReloadedOne(c);
      assert path + [] == path;
      assert NamesStep(c, path, []);
    }
  }

  lemma SkippedOne<V>(c: Change<V>)
    ensures Skipped([c]) == if c.reloadable then [] else [c]
  {
    assert [c][..0] == [];
  }

  lemma ReloadedOne<V>(c: Change<V>)
    ensures Reloaded([c]) == if c.reloadable then [c] else []
  {
    assert [c][..0] == [];
  }

  lemma {:induction false} ReloadedAreFieldSteps<V>(reloadable: string -> bool, a: Fields<V>, b: Fields<V>,
                                                    path: seq<string>)
    requires SameFields(a, b) && WellNamedFields(a)
    ensures Describe(Reloaded(DiffFields(reloadable, a, b, Dotted(path))), path, FieldSteps(reloadable, a, b, path))
  {
    if a.Cons? {
      ReloadedAreFieldSteps(reloadable, a.rest, b.rest, path);
      var later := DiffFields(reloadable, a.rest, b.rest, Dotted(path));
      if Visible(a) {
        var name := NameOf(a);
        DottedPush(path, name);
        ReloadedAreSteps(reloadable, a.node, b.node, path + [name]);
        DescribeMore(Diff(reloadable, a.node, b.node, Under(Dotted(path), name)), later, path, name,
                     Steps(reloadable, a.node, b.node, path + [name]), FieldSteps(reloadable, a.rest, b.rest, path));
      }
    }
  }

  // ---- hot reload ----

  /** A tree after the reloadable changes among some were applied by their dotted paths. */
  function Applied<V>(target: Tree<V>, source: Tree<V>, changes: seq<Change<V>>): Tree<V> {
    if changes == [] then target
    else
      var last := changes[|changes| - 1];
      var before := Applied(target, source, changes[..|changes| - 1]);
      if last.reloadable then SetNested(before, source, Split(last.field, '.')) else before
  }

  lemma DescribeSplit<V>(front: seq<Change<V>>, last: Change<V>, steps: seq<seq<string>>)
    requires Describe(front + [last], [], steps)
    ensures |steps| == |front| + 1 && Describe(front, [], steps[..|front|])
    ensures last.field == Dotted(steps[|front|]) && AreNames(steps[|front|])
  {
    var all, n := front + [last], |front|;
    forall i | 0 <= i < n ensures NamesStep(front[i], [], steps[..n][i]) {
      assert NamesStep(all[i], [], steps[i]);
    }
    assert NamesStep(all[n], [], steps[n]) && [] + steps[n] == steps[n];
  }

  lemma {:induction false} AppliedIsCopied<V>(target: Tree<V>, source: Tree<V>, changes: seq<Change<V>>,
                                              steps: seq<seq<string>>)
    requires Describe(Reloaded(changes), [], steps) && NonEmpty(steps)
    ensures Applied(target, source, changes) == CopyAll(target, source, steps)
  {
    if changes != [] {
      var front, last := changes[..|changes| - 1], changes[|changes| - 1];
      if last.reloadable {
        var n := |steps| - 1;
        DescribeSplit(Reloaded(front), last, steps);
        AppliedIsCopied(target, source, front, steps[..n]);
        SplitDotted(steps[n]);
      } else {
        assert Reloaded(changes) == Reloaded(front);
        AppliedIsCopied(target, source, front, steps);
      }
    }
  }

  /** Applying the reloadable changes of a diff takes each visible leaf from the new tree iff its path is reloadable. */
  lemma AppliedIsMerged<V>(reloadable: string -> bool, a: Tree<V>, b: Tree<V>)
    requires SameShape(a, b) && WellNamed(a) && a.Struct?
    ensures Applied(a, b, Diff(reloadable, a, b, "")) == Merged(reloadable, a, b, [])
  {
    ReloadedAreSteps(reloadable, a, b, []);
    StepsStart(reloadable, a.fields, b.fields, []);
    AppliedIsCopied(a, b, Diff(reloadable, a, b, Dotted([])), Steps(reloadable, a, b, []));
    CopyingMerges(reloadable, a, b, []);
  }

  method ApplyChanges<V>(a: Tree<V>, b: Tree<V>, changes: seq<Change<V>>) returns (result: Tree<V>)
    ensures result == Applied(a, b, changes)
  {
    result := a;
    for i := 0 to |changes|
      invariant result == Applied(a, b, changes[..i])
    {
      assert changes[..i + 1][..i] == changes[..i];
      if changes[i].reloadable {
        result := SetNested(result, b, Split(changes[i].field, '.'));
      }
    }
    assert changes[..|changes|] == changes;
  }

  /** Merges the reloadable fields of a new configuration into an old one of the same type. */
  method ApplyHotReload<V(==)>(reloadable: string -> bool, a: Tree<V>, b: Tree<V>)
    returns (result: Tree<V>, reloaded: seq<string>, skipped: seq<string>)
    requires SameShape(a, b) && WellNamed(a) && a.Struct?
    ensures result == Merged(reloadable, a, b, [])
    ensures SameShape(result, b) && WellNamed(result) && result.Struct?
    ensures Paths(Diff(reloadable, result, b, "")) == skipped
    ensures Paths(Skipped(Diff(reloadable, a, b, ""))) == skipped
    ensures Paths(Reloaded(Diff(reloadable, a, b, ""))) == reloaded
    ensures Merged(reloadable, result, b, []) == result
  {
    var changes := DiffStructs(reloadable, a, b, "");
    reloaded, skipped := Sorted(changes);
    result := ApplyChanges(a, b, changes);
    AppliedIsMerged(reloadable, a, b);
    MergedDiff(reloadable, a, b, []);
    MergedTwice(reloadable, a, b, []);
    MergedNames(reloadable, a, b, []);
  }

  /** Applying the same configuration a second time changes nothing, reloads nothing and skips the same paths. */
  method ApplyTwice<V(==)>(reloadable: string -> bool, a: Tree<V>, b: Tree<V>)
    returns (once: Tree<V>, twice: Tree<V>, reloaded: seq<string>, skipped: seq<string>, skippedAgain: seq<string>)
    requires SameShape(a, b) && WellNamed(a) && a.Struct?
    ensures twice == once && reloaded == [] && skippedAgain == skipped
  {
    once, reloaded, skipped := ApplyHotReload(reloadable, a, b);
    MergedDiff(reloadable, a, b, []);
    NothingLeft(Diff(reloadable, a, b, ""));
    twice, reloaded, skippedAgain := ApplyHotReload(reloadable, once, b);
  }

  /** What was skipped holds nothing to reload, and skipping it again keeps all of it. */
  lemma {:induction false} NothingLeft<V>(changes: seq<Change<V>>)
    ensures Reloaded(Skipped(changes)) == [] && Skipped(Skipped(changes)) == Skipped(changes)
  {
    if changes != [] {
      var front, last := changes[..|changes| - 1], changes[|changes| - 1];
      NothingLeft(front);
      if !last.reloadable {
        ReloadedAppend(Skipped(front), [last]);
        SkippedAppend(Skipped(front), [last]);
        ReloadedOne(last);
        SkippedOne(last);
      } else {
        assert Skipped(changes) == Skipped(front);
      }
    }
  }

  /** The paths of a change list, by whether they can be reloaded. */
  method Sorted<V>(changes: seq<Change<V>>) returns (reloaded: seq<string>, skipped: seq<string>)
    ensures reloaded == Paths(Reloaded(changes)) && skipped == Paths(Skipped(changes))
  {
    reloaded, skipped := [], [];
    for i := 0 to |changes|
      invariant reloaded == Paths(Reloaded(changes[..i])) && skipped == Paths(Skipped(changes[..i]))
    {
      assert changes[..i + 1][..i] == changes[..i];
      if changes[i].reloadable {
        reloaded := reloaded + [changes[i].field];
      } else {
        skipped := skipped + [changes[i].field];
      }
    }
    assert changes[..|changes|] == changes;
  }
}
