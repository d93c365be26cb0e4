/** The segmented inverted index: segments that fill up, are deleted from and are merged. */
module Segments {
  import opened Postings
  import opened Sequences

  const DefaultSegmentSize := 1024
  const DefaultMaxSegments := 10

  class Segment {
    const id: int
    const maxDocs: int
    var postings: Table
    var docLens: map<int, nat>
    var docCount: int
    var flushed: bool

    constructor (id: int, maxDocs: int)
      ensures this.id == id && this.maxDocs == maxDocs
      ensures postings == map[] && docLens == map[] && docCount == 0 && !flushed
    {
      this.id, this.maxDocs := id, maxDocs;
      postings, docLens, docCount, flushed := map[], map[], 0, false;
    }

    /** A closed segment that takes over merged contents. */
    constructor Merged(id: int, maxDocs: int, postings: Table, docLens: map<int, nat>)
      ensures this.id == id && this.maxDocs == maxDocs
      ensures this.postings == postings && this.docLens == docLens && docCount == |docLens| && flushed
    {
      this.id, this.maxDocs := id, maxDocs;
      this.postings, this.docLens, docCount, flushed := postings, docLens, |docLens|, true;
    }

    /** Adds a document's tokens; answers whether the segment is full. */
    method AddDocument(docId: int, tokens: seq<Token>) returns (full: bool)
      modifies this`postings, this`docLens, this`docCount
      ensures postings == Added(old(postings), Doc(docId, tokens))
      ensures docLens == old(docLens)[docId := |tokens|]
      ensures docCount == old(docCount) + 1
      ensures full <==> docCount >= maxDocs
    {
      var termPositions := CollectPositions(tokens);
      EntriesAreAdded(postings, Doc(docId, tokens), termPositions);
      AppendEntries(docId, termPositions);
      docLens := docLens[docId := |tokens|];
      docCount := docCount + 1;
      full := docCount >= maxDocs;
    }

    /** Appends one posting per term, the terms in any order. */
    method AppendEntries(docId: int, entries: map<string, seq<int>>)
      modifies this`postings
      ensures postings == WithEntries(old(postings), docId, entries)
    {
      var left := entries.Keys;
      ghost var before, done := postings, map[];
      assert postings == WithEntries(before, docId, done);
      while left != {}
        invariant left <= entries.Keys
        invariant done.Keys == entries.Keys - left && forall t | t in done :: done[t] == entries[t]
        invariant postings == WithEntries(before, docId, done)
        decreases |left|
      {
        var term :| term in left;
        WithOneMoreEntry(before, docId, done, term, entries[term]);
        postings := postings[term := At(postings, term) + [Posting(docId, |entries[term]|, entries[term])]];
        done := done[term := entries[term]];
        left := left - {term};
      }
      assert done == entries;
    }

    /** The per-document map from term to positions; a term's frequency is the number of its positions. */
    static method CollectPositions(tokens: seq<Token>) returns (m: map<string, seq<int>>)
      ensures Collected(m, tokens)
    {
      m := map[];
      for i := 0 to |tokens|
        invariant Collected(m, tokens[..i])
      {
        var tok := tokens[i];
        CollectedPush(m, tokens[..i], tok);
        FirstsPlusOne(tokens, i);
        m := m[tok.term := (if tok.term in m then m[tok.term] else []) + [tok.position]];
      }
      assert tokens[..|tokens|] == tokens;
    }

    function Search(term: string): seq<Posting>
      reads this
    {
      At(postings, term)
    }

    /** Removes a document from every posting list; a list left empty is dropped. */
    method DeleteDocument(docId: int)
      modifies this`postings, this`docLens, this`docCount
      ensures postings == Removed(old(postings), docId)
      ensures docLens == old(docLens) - {docId}
      ensures docCount == old(docCount) - 1
    {
      docLens := docLens - {docId};
      FilterAll(docId);
      docCount := docCount - 1;
    }

    /** Filters every posting list, the terms in any order. */
    method FilterAll(docId: int)
      modifies this`postings
      ensures postings == Removed(old(postings), docId)
    {
      var left := postings.Keys;
      ghost var before := postings;
      PartlyRemovedFirst(before, docId);
      while left != {}
        invariant left <= before.Keys
        invariant postings == PartlyRemoved(before, docId, left)
        decreases |left|
      {
        var term :| term in left;
        PartlyRemovedStep(before, docId, left, term);
        var filtered := Filter(postings[term], docId);
        postings := if filtered == [] then postings - {term} else postings[term := filtered];
        left := left - {term};
      }
      PartlyRemovedLast(before, docId);
    }

    static method Filter(ps: seq<Posting>, docId: int) returns (filtered: seq<Posting>)
      ensures filtered == Keep(ps, docId)
    {
      filtered := [];
      for i := 0 to |ps|
        invariant filtered == Keep(ps[..i], docId)
      {
        assert ps[..i + 1][..i] == ps[..i];
        if ps[i].docId != docId {
          filtered := filtered + [ps[i]];
        }
      }
      assert ps[..|ps|] == ps;
    }
  }

  ghost function TablesOf(segs: seq<Segment>): (ts: seq<Table>)
    reads segs`postings
    ensures |ts| == |segs| && forall i | 0 <= i < |ts| :: ts[i] == segs[i].postings
  {
    if segs == [] then [] else TablesOf(segs[..|segs| - 1]) + [segs[|segs| - 1].postings]
  }

  /** The manager of the segments, newest and still open segment last. `log` is the history it stands for:
      the documents added, minus those deleted since. */
  class SegmentManager {
    var segments: seq<Segment>
    var activeSeg: Segment
    var nextSegId: int
    const maxSegments: int
    const segmentSize: int
    ghost var log: seq<Doc>

    ghost function Tables(): (ts: seq<Table>)
      reads this`segments, segments`postings
      ensures |ts| == |segments| && forall i | 0 <= i < |ts| :: ts[i] == segments[i].postings
    {
      TablesOf(segments)
    }

    ghost predicate Valid()
      reads this`segments, this`activeSeg, this`log, segments`postings
    {
      && |segments| >= 1
      && segments[|segments| - 1] == activeSeg
      && (forall i, j | 0 <= i < j < |segments| :: segments[i] != segments[j])
      && Agrees(Tables(), log)
    }

    constructor (segmentSize: int, maxSegments: int)
      ensures Valid() && log == [] && fresh(segments)
      ensures this.segmentSize > 0 && this.maxSegments > 0
    {
      this.segmentSize := if segmentSize <= 0 then DefaultSegmentSize else segmentSize;
      this.maxSegments := if maxSegments <= 0 then DefaultMaxSegments else maxSegments;
      var first := new Segment(1, if segmentSize <= 0 then DefaultSegmentSize else segmentSize);
      nextSegId := 1;
      activeSeg := first;
      segments := [first];
      log := [];
      new;
      NewTableAgrees([], []);
      assert Tables() == [] + [map[]];
    }

    /** Adds to the active segment; a full segment is closed and a new one opened behind it. */
    method AddDocument(docId: int, tokens: seq<Token>)
      requires Valid()
      modifies this, activeSeg
      ensures Valid() && log == old(log) + [Doc(docId, tokens)]
      ensures old(segments) <= segments && forall i | |old(segments)| <= i < |segments| :: fresh(segments[i])
      ensures activeSeg != old(activeSeg) <==> old(activeSeg.docCount) + 1 >= old(activeSeg).maxDocs
    {
      var full := AddToActive(docId, tokens);
      if full {
        Rollover();
      }
    }

    method AddToActive(docId: int, tokens: seq<Token>) returns (full: bool)
      requires Valid()
      modifies this`log, activeSeg`postings, activeSeg`docLens, activeSeg`docCount
      ensures Valid() && log == old(log) + [Doc(docId, tokens)]
      ensures full <==> old(activeSeg.docCount) + 1 >= activeSeg.maxDocs
    {
      ghost var before := Tables();
      full := activeSeg.AddDocument(docId, tokens);
      log := log + [Doc(docId, tokens)];
      AddAgrees(before, Tables(), old(log), Doc(docId, tokens));
    }

    /** Closes the active segment and opens a new one behind it. */
    method Rollover()
      requires Valid()
      modifies this, activeSeg`flushed
      ensures Valid() && log == old(log)
      ensures |segments| == |old(segments)| + 1 && old(segments) <= segments
      ensures fresh(activeSeg)
    {
      ghost var before := Tables();
      activeSeg.flushed := true;
      nextSegId := nextSegId + 1;
      var newSeg := new Segment(nextSegId, segmentSize);
      activeSeg := newSeg;
      segments := segments + [newSeg];
      NewTableAgrees(before, log);
      assert Tables() == before + [map[]];
    }

    /** Searches every segment, oldest first: exactly the postings of the flat log, in its order. */
    method Search(term: string) returns (found: seq<Posting>)
      requires Valid()
      ensures found == FlatSearch(log, term)
    {
      found := [];
      for i := 0 to |segments|
        invariant found == SearchAll(Tables()[..i], term)
      {
        assert Tables()[..i + 1][..i] == Tables()[..i];
        found := found + segments[i].Search(term);
      }
      assert Tables()[..|segments|] == Tables();
    }

    /** Deletes a document from every segment. */
    method DeleteDocument(docId: int)
      requires Valid()
      modifies this`log, segments
      ensures Valid() && log == Without(old(log), docId)
    {
      ghost var before := Tables();
      for i := 0 to |segments|
        invariant log == old(log)
        invariant forall k | 0 <= k < i :: segments[k].postings == Removed(before[k], docId)
        invariant forall k | i <= k < |segments| :: segments[k].postings == before[k]
      {
        segments[i].DeleteDocument(docId);
      }
      log := Without(log, docId);
      RemoveAgrees(before, Tables(), old(log), docId);
    }

    /** Merges all closed segments into one, when there are at least two; nothing a search returns changes. */
    method MergeSegments()
      requires Valid()
      modifies this
      ensures Valid() && log == old(log) && activeSeg == old(activeSeg)
      ensures |old(segments)| <= 2 ==> segments == old(segments)
      ensures |old(segments)| > 2 ==> |segments| == 2 && fresh(segments[0]) && segments[1] == activeSeg
    {
      if |segments| <= 1 {
        return;
      }
      var toMerge := ClosedSegments();
      if |toMerge| <= 1 {
        return;
      }
      var postings, docLens := MergedContents(toMerge);
      ReplaceClosed(postings, docLens, segmentSize * |toMerge|);
    }

    /** Puts one merged segment in place of all closed ones. */
    method ReplaceClosed(postings: Table, docLens: map<int, nat>, capacity: int)
      requires Valid() && Joins(postings, Tables()[..|segments| - 1])
      modifies this
      ensures Valid() && log == old(log) && activeSeg == old(activeSeg)
      ensures |segments| == 2 && fresh(segments[0])
    {
      ghost var last := activeSeg.postings;
      MergeAgrees(Tables(), postings, log);
      assert Agrees([postings, last], log);
      nextSegId := nextSegId + 1;
      var merged := new Segment.Merged(nextSegId, capacity, postings, docLens);
      segments := [merged, activeSeg];
      assert Tables() == [postings, last];
    }

    /** The posting lists of some segments joined in order, and their document lengths, later ones winning. */
    method MergedContents(toMerge: seq<Segment>) returns (postings: Table, docLens: map<int, nat>)
      requires Valid() && toMerge == segments[..|segments| - 1]
      ensures Joins(postings, Tables()[..|toMerge|])
      ensures forall d :: d in docLens <==> exists i | 0 <= i < |toMerge| :: d in toMerge[i].docLens
    {
      postings, docLens := map[], map[];
      ghost var tables := Tables();
      for i := 0 to |toMerge|
        invariant Joins(postings, tables[..i])
        invariant forall d :: d in docLens <==> exists k | 0 <= k < i :: d in toMerge[k].docLens
      {
        ghost var sofar := postings;
        postings := Joined(postings, toMerge[i].postings);
        JoinsOneMore(sofar, postings, tables[..i], tables[i]);
        FirstsPlusOne(tables, i);
        docLens := docLens + toMerge[i].docLens;
      }
    }

    method Apply(op: Op)
      requires Valid()
      modifies this, segments
      ensures Valid() && log == NextLog(old(log), op)
      ensures forall i | 0 <= i < |segments| :: segments[i] in old(segments) || fresh(segments[i])
    {
      match op {
        case Add(d) => AddDocument(d.id, d.tokens);
        case Delete(id) => DeleteDocument(id);
        case Merge => MergeSegments();
      }
    }

    /** The segments other than the active one, in order. */
    method ClosedSegments() returns (closed: seq<Segment>)
      requires Valid()
      ensures closed == segments[..|segments| - 1]
    {
      closed := [];
      for i := 0 to |segments|
        invariant closed == if i < |segments| then segments[..i] else segments[..|segments| - 1]
      {
        if segments[i] != activeSeg {
          closed := closed + [segments[i]];
        }
      }
    }

    /** Appends every list of the second table to the first table's list for the same term. */
    static method Joined(m: Table, m': Table) returns (r: Table)
      ensures forall t :: At(r, t) == At(m, t) + At(m', t)
    {
      r := m;
      var left := m'.Keys;
      while left != {}
        invariant left <= m'.Keys
        invariant forall t :: At(r, t) == At(m, t) + if t in left then [] else At(m', t)
        decreases |left|
      {
        var term :| term in left;
        r := r[term := At(r, term) + m'[term]];
        left := left - {term};
      }
    }
  }

  /** Any run of adds, deletes and merges, with any segment size, ends in searches that read the flat history. */
  method SearchAfterRun(ops: seq<Op>, segmentSize: int, maxSegments: int, term: string) returns (found: seq<Posting>)
    ensures found == FlatSearch(Survivors(ops), term)
  {
    var sm := new SegmentManager(segmentSize, maxSegments);
    for i := 0 to |ops|
      invariant sm.Valid() && sm.log == LogAfter(ops[..i])
      invariant fresh(sm) && fresh(sm.segments)
    {
      assert ops[..i + 1][..i] == ops[..i];
      sm.Apply(ops[i]);
    }
    assert ops[..|ops|] == ops;
    LogIsSurvivors(ops);
    found := sm.Search(term);
  }
}
