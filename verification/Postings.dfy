/** Documents, posting lists, and the flat log that an index must agree with. */
module Postings {

  import opened Sequences

  datatype Token = Token(term: string, position: int)

  datatype Doc = Doc(id: int, tokens: seq<Token>)

  datatype Posting = Posting(docId: int, termFreq: int, positions: seq<int>)

  /** A segment's table: term to posting list. */
  type Table = map<string, seq<Posting>>

  function At(m: Table, t: string): seq<Posting> {
    if t in m then m[t] else []
  }

  // ---- reading a flat log ----

  /** The positions of a term in a document, in order. */
  function Positions(tokens: seq<Token>, t: string): seq<int> {
    if tokens == [] then []
    else
      var n := |tokens| - 1;
      Positions(tokens[..n], t) + if tokens[n].term == t then [tokens[n].position] else []
  }

  /** A document's posting for a term, if it has the term. */
  function DocPostings(d: Doc, t: string): seq<Posting> {
    var ps := Positions(d.tokens, t);
    if ps == [] then [] else [Posting(d.id, |ps|, ps)]
  }

  /** What a search over a log of documents returns: one posting per document with the term, in log order. */
  function FlatSearch(log: seq<Doc>, t: string): seq<Posting> {
    if log == [] then [] else FlatSearch(log[..|log| - 1], t) + DocPostings(log[|log| - 1], t)
  }

  /** The log without a document id. */
  function Without(log: seq<Doc>, id: int): seq<Doc> {
    if log == [] then []
    else Without(log[..|log| - 1], id) + if log[|log| - 1].id == id then [] else [log[|log| - 1]]
  }

  /** The log without some document ids. */
  function WithoutAll(log: seq<Doc>, ids: set<int>): seq<Doc> {
    if log == [] then []
    else WithoutAll(log[..|log| - 1], ids) + if log[|log| - 1].id in ids then [] else [log[|log| - 1]]
  }

  lemma {:induction false} WithoutNone(log: seq<Doc>)
    ensures WithoutAll(log, {}) == log
  {
    if log != [] {
      WithoutNone(log[..|log| - 1]);
      assert log == log[..|log| - 1] + [log[|log| - 1]];
    }
  }

  lemma WithoutOf(log: seq<Doc>, d: Doc, id: int)
    ensures Without(log + [d], id) == Without(log, id) + if d.id == id then [] else [d]
  {
    assert (log + [d])[..|log|] == log;
  }

  /** Ids can leave a log one after the other or all at once. */
  lemma {:induction false} WithoutOneMore(log: seq<Doc>, ids: set<int>, id: int)
    ensures Without(WithoutAll(log, ids), id) == WithoutAll(log, ids + {id})
  {
    if log != [] {
      var front, last := log[..|log| - 1], log[|log| - 1];
      WithoutOneMore(front, ids, id);
      if last.id in ids {
        assert WithoutAll(log, ids) == WithoutAll(front, ids);
      } else {
        WithoutOf(WithoutAll(front, ids), last, id);
      }
    }
  }

  lemma {:induction false} WithoutElements(log: seq<Doc>, id: int)
    ensures forall d :: d in Without(log, id) <==> d in log && d.id != id
  {
    if log != [] {
      WithoutElements(log[..|log| - 1], id);
      assert log == log[..|log| - 1] + [log[|log| - 1]];
    }
  }

  function Keep(ps: seq<Posting>, id: int): seq<Posting> {
    if ps == [] then []
    else Keep(ps[..|ps| - 1], id) + if ps[|ps| - 1].docId == id then [] else [ps[|ps| - 1]]
  }

  lemma {:induction false} KeepAppend(a: seq<Posting>, b: seq<Posting>, id: int)
    ensures Keep(a + b, id) == Keep(a, id) + Keep(b, id)
  {
    if b == [] {
      assert a + b == a;
    } else {
      var last := b[|b| - 1];
      KeepAppend(a, b[..|b| - 1], id);
      LastOfBoth(a, b);
      Regroup(Keep(a, id), Keep(b[..|b| - 1], id), if last.docId == id then [] else [last]);
    }
  }

  lemma FlatSearchPush(log: seq<Doc>, d: Doc, t: string)
    ensures FlatSearch(log + [d], t) == FlatSearch(log, t) + DocPostings(d, t)
  {
    assert (log + [d])[..|log|] == log;
  }

  lemma KeepDocPostings(d: Doc, id: int, t: string)
    ensures Keep(DocPostings(d, t), id) == if d.id == id then [] else DocPostings(d, t)
  {
    var ps := DocPostings(d, t);
    if ps != [] { assert ps[..|ps| - 1] == []; }
  }

  lemma {:induction false} KeepShrinks(ps: seq<Posting>, id: int)
    ensures |Keep(ps, id)| <= |ps|
  {
    if ps != [] { KeepShrinks(ps[..|ps| - 1], id); }
  }

  /** Removing an id from the postings is the same as removing it from the log. */
  lemma {:induction false} KeepFlatSearch(log: seq<Doc>, id: int, t: string)
    ensures Keep(FlatSearch(log, t), id) == FlatSearch(Without(log, id), t)
  {
    if log != [] {
      var rest, d := log[..|log| - 1], log[|log| - 1];
      KeepFlatSearch(rest, id, t);
      var found, more := FlatSearch(rest, t), DocPostings(d, t);
      assert FlatSearch(log, t) == found + more;
      KeepAppend(found, more, id);
      KeepDocPostings(d, id, t);
      if d.id == id {
        assert Without(log, id) == Without(rest, id) + [] == Without(rest, id);
        assert Keep(found, id) + [] == Keep(found, id);
      } else {
        assert Without(log, id) == Without(rest, id) + [d];
        FlatSearchPush(Without(rest, id), d, t);
      }
    }
  }

  /** A search returns at most one posting per logged document, each for a document with the term. */
  lemma {:induction false} FlatSearchIds(log: seq<Doc>, t: string, k: nat)
    requires k < |FlatSearch(log, t)|
    ensures exists i | 0 <= i < |log| :: log[i].id == FlatSearch(log, t)[k].docId
  {
    var n := |log| - 1;
    if k < |FlatSearch(log[..n], t)| {
      FlatSearchIds(log[..n], t, k);
      var i :| 0 <= i < |log[..n]| && log[..n][i].id == FlatSearch(log[..n], t)[k].docId;
      assert log[i].id == FlatSearch(log, t)[k].docId;
    } else {
      assert log[n].id == FlatSearch(log, t)[k].docId;
    }
  }

  // ---- tables ----

  function Terms(tokens: seq<Token>): set<string> {
    set i | 0 <= i < |tokens| :: tokens[i].term
  }

  lemma {:induction false} PositionsNonEmpty(tokens: seq<Token>, t: string)
    ensures Positions(tokens, t) != [] <==> t in Terms(tokens)
  {
    if tokens != [] {
      var n := |tokens| - 1;
      PositionsNonEmpty(tokens[..n], t);
      if t in Terms(tokens) && tokens[n].term != t {
        var i :| 0 <= i < |tokens| && tokens[i].term == t;
        assert tokens[..n][i].term == t;
      }
      if t in Terms(tokens[..n]) {
        var i :| 0 <= i < n && tokens[..n][i].term == t;
        assert tokens[i].term == t;
      }
    }
  }

  lemma PositionsPush(tokens: seq<Token>, tok: Token, t: string)
    ensures Positions(tokens + [tok], t) == Positions(tokens, t) + if tok.term == t then [tok.position] else []
  {
    assert (tokens + [tok])[..|tokens|] == tokens;
  }

  lemma TermsPush(tokens: seq<Token>, tok: Token)
    ensures Terms(tokens + [tok]) == Terms(tokens) + {tok.term}
  {
    forall t | t in Terms(tokens) ensures t in Terms(tokens + [tok]) {
      var k :| 0 <= k < |tokens| && tokens[k].term == t;
      assert (tokens + [tok])[k].term == t;
    }
    assert (tokens + [tok])[|tokens|].term == tok.term;
  }

  /** A map from each term of the tokens to its positions. */
  ghost predicate Collected(m: map<string, seq<int>>, tokens: seq<Token>) {
    m.Keys == Terms(tokens) && forall t | t in m :: m[t] == Positions(tokens, t)
  }

  lemma CollectedPush(m: map<string, seq<int>>, tokens: seq<Token>, tok: Token)
    requires Collected(m, tokens)
    ensures Collected(m[tok.term := (if tok.term in m then m[tok.term] else []) + [tok.position]], tokens + [tok])
  {
    var m' := m[tok.term := (if tok.term in m then m[tok.term] else []) + [tok.position]];
    TermsPush(tokens, tok);
    PositionsNonEmpty(tokens, tok.term);
    forall t | t in m' ensures m'[t] == Positions(tokens + [tok], t) {
      PositionsPush(tokens, tok, t);
    }
  }

  function Added(m: Table, d: Doc): Table {
    map t | t in m.Keys + Terms(d.tokens) :: At(m, t) + DocPostings(d, t)
  }

  function Removed(m: Table, id: int): Table {
    map t | t in m && Keep(m[t], id) != [] :: Keep(m[t], id)
  }

  /** A table whose terms outside `left` have had the document removed. */
  function PartlyRemoved(m: Table, id: int, left: set<string>): Table {
    map t | t in m && (t in left || Keep(m[t], id) != []) :: if t in left then m[t] else Keep(m[t], id)
  }

  lemma PartlyRemovedFirst(m: Table, id: int)
    ensures PartlyRemoved(m, id, m.Keys) == m
  {
  }

  lemma PartlyRemovedStep(m: Table, id: int, left: set<string>, t: string)
    requires t in left && left <= m.Keys
    ensures var r := PartlyRemoved(m, id, left);
            && t in r && r[t] == m[t]
            && PartlyRemoved(m, id, left - {t}) == if Keep(m[t], id) == [] then r - {t} else r[t := Keep(m[t], id)]
  {
    var r := PartlyRemoved(m, id, left);
    var r' := if Keep(m[t], id) == [] then r - {t} else r[t := Keep(m[t], id)];
    assert PartlyRemoved(m, id, left - {t}).Keys == r'.Keys;
  }

  lemma PartlyRemovedLast(m: Table, id: int)
    ensures PartlyRemoved(m, id, {}) == Removed(m, id)
  {
  }

  /** A table with one more posting for each term of a map from terms to positions. */
  function WithEntries(m: Table, id: int, entries: map<string, seq<int>>): Table {
    map t | t in m.Keys + entries.Keys ::
      if t in entries then At(m, t) + [Posting(id, |entries[t]|, entries[t])] else At(m, t)
  }

  lemma WithOneMoreEntry(m: Table, id: int, entries: map<string, seq<int>>, t: string, ps: seq<int>)
    requires t !in entries
    ensures var w := WithEntries(m, id, entries);
            WithEntries(m, id, entries[t := ps]) == w[t := At(w, t) + [Posting(id, |ps|, ps)]]
  {
    var w, w' := WithEntries(m, id, entries), WithEntries(m, id, entries[t := ps]);
    assert At(w, t) == At(m, t);
    assert w'.Keys == w.Keys + {t};
  }

  lemma EntriesAreAdded(m: Table, d: Doc, entries: map<string, seq<int>>)
    requires Collected(entries, d.tokens)
    ensures WithEntries(m, d.id, entries) == Added(m, d)
  {
    forall t | t in Added(m, d) ensures WithEntries(m, d.id, entries)[t] == Added(m, d)[t] {
      PositionsNonEmpty(d.tokens, t);
    }
  }

  lemma AddedAt(m: Table, d: Doc, t: string)
    ensures At(Added(m, d), t) == At(m, t) + DocPostings(d, t)
  {
    PositionsNonEmpty(d.tokens, t);
    if t !in Added(m, d) { assert At(m, t) + DocPostings(d, t) == []; }
  }

  lemma RemovedAt(m: Table, id: int, t: string)
    ensures At(Removed(m, id), t) == Keep(At(m, t), id)
  {
  }

  /** A search over several tables, oldest first. */
  function SearchAll(ms: seq<Table>, t: string): seq<Posting> {
    if ms == [] then [] else SearchAll(ms[..|ms| - 1], t) + At(ms[|ms| - 1], t)
  }

  lemma {:induction false} SearchAllRemoved(ms: seq<Table>, ms': seq<Table>, id: int, t: string)
    requires |ms| == |ms'| && forall i | 0 <= i < |ms| :: ms'[i] == Removed(ms[i], id)
    ensures SearchAll(ms', t) == Keep(SearchAll(ms, t), id)
  {
    if ms != [] {
      var n := |ms| - 1;
      SearchAllRemoved(ms[..n], ms'[..n], id, t);
      RemovedAt(ms[n], id, t);
      KeepAppend(SearchAll(ms[..n], t), At(ms[n], t), id);
    }
  }

  // ---- runs ----

  datatype Op = Add(doc: Doc) | Delete(id: int) | Merge

  /** What one operation does to the log: merging leaves it alone. */
  function NextLog(log: seq<Doc>, op: Op): seq<Doc> {
    match op
    case Add(d) => log + [d]
    case Delete(id) => Without(log, id)
    case Merge => log
  }

  function LogAfter(ops: seq<Op>): seq<Doc> {
    if ops == [] then [] else NextLog(LogAfter(ops[..|ops| - 1]), ops[|ops| - 1])
  }

  /** The document an operation adds, unless a later one deletes it. */
  function Surviving(op: Op, later: seq<Op>): seq<Doc> {
    if op.Add? && Delete(op.doc.id) !in later then [op.doc] else []
  }

  /** The documents added in a run and not deleted later in it, in order. */
  function Survivors(ops: seq<Op>): seq<Doc> {
    if ops == [] then [] else Surviving(ops[0], ops[1..]) + Survivors(ops[1..])
  }

  lemma {:induction false} WithoutAppend(a: seq<Doc>, b: seq<Doc>, id: int)
    ensures Without(a + b, id) == Without(a, id) + Without(b, id)
  {
    if b == [] {
      assert a + b == a;
    } else {
      var last := b[|b| - 1];
      WithoutAppend(a, b[..|b| - 1], id);
      LastOfBoth(a, b);
      Regroup(Without(a, id), Without(b[..|b| - 1], id), if last.id == id then [] else [last]);
    }
  }

  lemma SurvivingPush(first: Op, later: seq<Op>, op: Op)
    ensures Surviving(first, later + [op])
         == if op.Delete? then Without(Surviving(first, later), op.id) else Surviving(first, later)
  {
    var s := Surviving(first, later);
    assert s != [] ==> s[..0] == [];
  }

  lemma NextLogAppend(a: seq<Doc>, b: seq<Doc>, op: Op)
    ensures NextLog(a + b, op) == (if op.Delete? then Without(a, op.id) else a) + NextLog(b, op)
  {
    match op
    case Add(d) => Regroup(a, b, [d]);
    case Delete(id) => WithoutAppend(a, b, id);
    case Merge =>
  }

  lemma {:induction false} SurvivorsPush(ops: seq<Op>, op: Op)
    ensures Survivors(ops + [op]) == NextLog(Survivors(ops), op)
  {
    if ops == [] {
      assert (ops + [op])[1..] == [];
    } else {
      assert (ops + [op])[1..] == ops[1..] + [op];
      SurvivorsPush(ops[1..], op);
      SurvivingPush(ops[0], ops[1..], op);
      NextLogAppend(Surviving(ops[0], ops[1..]), Survivors(ops[1..]), op);
    }
  }

  /** The log of a run is exactly the added documents that no later delete names. */
  lemma {:induction false} LogIsSurvivors(ops: seq<Op>)
    ensures LogAfter(ops) == Survivors(ops)
  {
    if ops != [] {
      var n := |ops| - 1;
      LogIsSurvivors(ops[..n]);
      SurvivorsPush(ops[..n], ops[n]);
      assert ops == ops[..n] + [ops[n]];
    }
  }

  // ---- tables that stand for a log ----

  /** For every term, searching the tables gives what the flat log gives. */
  ghost predicate Agrees(ms: seq<Table>, log: seq<Doc>) {
    forall t :: SearchAll(ms, t) == FlatSearch(log, t)
  }

  lemma NewTableAgrees(ms: seq<Table>, log: seq<Doc>)
    requires Agrees(ms, log)
    ensures Agrees(ms + [map[]], log)
  {
    forall t ensures SearchAll(ms + [map[]], t) == FlatSearch(log, t) {
      assert (ms + [map[]])[..|ms|] == ms;
    }
  }

  lemma SearchAdded(ms: seq<Table>, ms': seq<Table>, d: Doc, t: string)
    requires |ms| == |ms'| >= 1
    requires ms'[..|ms| - 1] == ms[..|ms| - 1] && ms'[|ms| - 1] == Added(ms[|ms| - 1], d)
    ensures SearchAll(ms', t) == SearchAll(ms, t) + DocPostings(d, t)
  {
    var n := |ms| - 1;
    AddedAt(ms[n], d, t);
    Regroup(SearchAll(ms[..n], t), At(ms[n], t), DocPostings(d, t));
  }

  lemma AddAgrees(ms: seq<Table>, ms': seq<Table>, log: seq<Doc>, d: Doc)
    requires Agrees(ms, log) && |ms| == |ms'| >= 1
    requires ms'[..|ms| - 1] == ms[..|ms| - 1] && ms'[|ms| - 1] == Added(ms[|ms| - 1], d)
    ensures Agrees(ms', log + [d])
  {
    forall t ensures SearchAll(ms', t) == FlatSearch(log + [d], t) {
      SearchAdded(ms, ms', d, t);
      FlatSearchPush(log, d, t);
    }
  }

  lemma RemoveAgrees(ms: seq<Table>, ms': seq<Table>, log: seq<Doc>, id: int)
    requires Agrees(ms, log) && |ms| == |ms'|
    requires forall i | 0 <= i < |ms| :: ms'[i] == Removed(ms[i], id)
    ensures Agrees(ms', Without(log, id))
  {
    forall t ensures SearchAll(ms', t) == FlatSearch(Without(log, id), t) {
      SearchAllRemoved(ms, ms', id, t);
      KeepFlatSearch(log, id, t);
    }
  }

  /** One table that answers for several. */
  ghost predicate Joins(merged: Table, ms: seq<Table>) {
    forall t :: At(merged, t) == SearchAll(ms, t)
  }

  lemma JoinsOneMore(merged: Table, merged': Table, ms: seq<Table>, m: Table)
    requires Joins(merged, ms) && forall t :: At(merged', t) == At(merged, t) + At(m, t)
    ensures Joins(merged', ms + [m])
  {
    assert (ms + [m])[..|ms|] == ms;
  }

  lemma SearchTwo(a: Table, b: Table, t: string)
    ensures SearchAll([a, b], t) == At(a, t) + At(b, t)
  {
    assert [a, b][..1] == [a] && [a][..0] == [];
    assert SearchAll([a], t) == [] + At(a, t) == At(a, t);
  }

  lemma MergeAgrees(ms: seq<Table>, merged: Table, log: seq<Doc>)
    requires Agrees(ms, log) && |ms| >= 1
    requires Joins(merged, ms[..|ms| - 1])
    ensures Agrees([merged, ms[|ms| - 1]], log)
  {
    forall t ensures SearchAll([merged, ms[|ms| - 1]], t) == SearchAll(ms, t) {
      SearchTwo(merged, ms[|ms| - 1], t);
    }
  }
}
