/** What a diff of two configurations reports: exactly the visible leaves that differ, by path, with both values. */
module HotReloadDiff {

  import opened HotReload
  import opened Options
  import opened Sequences
  import opened Splitting

  /** A field goes by the first part of its tag; by its own name when that is empty or a dash. */
  lemma TagNames(goName: string, first: string, options: string)
    requires ',' !in first
    ensures Name(goName, first) == Name(goName, first + "," + options)
         == if first == "" || first == "-" then goName else first
  {
    BeforeStops(first, ',', options);
    assert first + "," + options == first + [','] + options;
  }

  /** A field that is not exported, or whose tag is a dash, has no path and is not compared; any other has one. */
  lemma HiddenFields<V>(reloadable: string -> bool, a: Fields<V>, b: Fields<V>, prefix: string, path: seq<string>)
    requires a.Cons? && path != []
    ensures !a.exported || a.tag == "-" ==>
              && LeafIn(a, path) == LeafIn(a.rest, path)
              && (SameFields(a, b) ==>
                    DiffFields(reloadable, a, b, prefix) == DiffFields(reloadable, a.rest, b.rest, prefix))
    ensures a.exported && a.tag != "-" ==> LeafIn(a, [NameOf(a)] + path) == LeafAt(a.node, path)
  {
    assert ([NameOf(a)] + path)[1..] == path;
  }

  ghost predicate Differ<V>(x: Option<V>, y: Option<V>) {
    x.Some? && y.Some? && x.value != y.value
  }

  /** The change that a leaf at a path makes. */
  function ChangeAt<V>(reloadable: string -> bool, path: seq<string>, x: V, y: V): Change<V> {
    Change(Dotted(path), x, y, reloadable(Dotted(path)))
  }

  lemma PathThrough(above: seq<string>, path: seq<string>)
    requires path != []
    ensures above + [path[0]] + path[1..] == above + path
  {
  }

  /** Every visible leaf that differs is reported, with its old and its new value. */
  lemma {:induction false} LeafIsReported<V>(reloadable: string -> bool, a: Tree<V>, b: Tree<V>, above: seq<string>,
                                             path: seq<string>)
    requires SameShape(a, b) && Differ(LeafAt(a, path), LeafAt(b, path))
    ensures ChangeAt(reloadable, above + path, LeafAt(a, path).value, LeafAt(b, path).value)
         in Diff(reloadable, a, b, Dotted(above))
  {
    if a.Struct? {
      LeafInIsReported(reloadable, a.fields, b.fields, above, path);
    } else {
      assert above + path == above;
    }
  }

  lemma {:induction false} LeafInIsReported<V>(reloadable: string -> bool, a: Fields<V>, b: Fields<V>,
                                               above: seq<string>, path: seq<string>)
    requires SameFields(a, b) && Differ(LeafIn(a, path), LeafIn(b, path))
    ensures ChangeAt(reloadable, above + path, LeafIn(a, path).value, LeafIn(b, path).value)
         in DiffFields(reloadable, a, b, Dotted(above))
  {
    if Visible(a) && NameOf(a) == path[0] {
      DottedPush(above, path[0]);
      PathThrough(above, path);
      LeafIsReported(reloadable, a.node, b.node, above + [path[0]], path[1..]);
    } else {
      LeafInIsReported(reloadable, a.rest, b.rest, above, path);
    }
  }

  /** A change reports a leaf that differs. */
  ghost predicate Reports<V>(reloadable: string -> bool, c: Change<V>, path: seq<string>, x: Option<V>, y: Option<V>) {
    Differ(x, y) && c == ChangeAt(reloadable, path, x.value, y.value)
  }

  /** Nothing else is reported: every change is a visible leaf that differs. */
  lemma {:induction false} ReportedIsLeaf<V>(reloadable: string -> bool, a: Tree<V>, b: Tree<V>, above: seq<string>,
                                             c: Change<V>)
    returns (path: seq<string>)
    requires SameShape(a, b) && WellNamed(a) && c in Diff(reloadable, a, b, Dotted(above))
    ensures Reports(reloadable, c, above + path, LeafAt(a, path), LeafAt(b, path))
  {
    if a.Struct? {
      path := ReportedIsLeafIn(reloadable, a.fields, b.fields, above, c);
    } else {
      path := [];
      assert above + [] == above;
    }
  }

  lemma {:induction false} ReportedIsLeafIn<V>(reloadable: string -> bool, a: Fields<V>, b: Fields<V>,
                                               above: seq<string>, c: Change<V>)
    returns (path: seq<string>)
    requires SameFields(a, b) && WellNamedFields(a) && c in DiffFields(reloadable, a, b, Dotted(above))
    ensures path != [] && path[0] in Names(a)
    ensures Reports(reloadable, c, above + path, LeafIn(a, path), LeafIn(b, path))
  {
    if Visible(a) && c in Diff(reloadable, a.node, b.node, Under(Dotted(above), NameOf(a))) {
      DottedPush(above, NameOf(a));
      var rest := ReportedIsLeaf(reloadable, a.node, b.node, above + [NameOf(a)], c);
      path := [NameOf(a)] + rest;
      assert path[1..] == rest;
      PathThrough(above, path);
    } else {
      path := ReportedIsLeafIn(reloadable, a.rest, b.rest, above, c);
    }
  }

  /** The diff of two configurations of one type has a change exactly for every visible leaf that differs. */
  lemma DiffIsExact<V>(reloadable: string -> bool, a: Tree<V>, b: Tree<V>, c: Change<V>)
    requires SameShape(a, b) && WellNamed(a)
    ensures c in Diff(reloadable, a, b, "")
       <==> exists path :: Reports(reloadable, c, path, LeafAt(a, path), LeafAt(b, path))
  {
    if c in Diff(reloadable, a, b, Dotted([])) {
      var path := ReportedIsLeaf(reloadable, a, b, [], c);
      assert [] + path == path;
    }
    if path :| Reports(reloadable, c, path, LeafAt(a, path), LeafAt(b, path)) {
      LeafIsReported(reloadable, a, b, [], path);
      assert [] + path == path;
    }
  }
}
