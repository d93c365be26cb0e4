/** The index on top of the segments: document table, document frequencies, eviction and compaction. */
module InvertedIndex {
  import opened Postings
  import opened Segments
  import opened Sequences

  datatype DocInfo = DocInfo(bucket: string, key: string, version: string, length: nat)

  datatype Status = Ok | Closed | QuotaExceeded | StorageFailed

  predicate Refuses(status: Status) {
    status.Closed? || status.QuotaExceeded?
  }

  function Frequency(df: map<string, int>, t: string): int {
    if t in df then df[t] else 0
  }

  /** Every term with a live posting is counted, at least as often as a search finds it. */
  ghost predicate Counts(df: map<string, int>, log: seq<Doc>) {
    forall t :: Counted(df, log, t)
  }

  ghost predicate Counted(df: map<string, int>, log: seq<Doc>, t: string) {
    && |FlatSearch(log, t)| <= Frequency(df, t)
    && (FlatSearch(log, t) != [] ==> t in df)
  }

  /** Exactly the terms with live postings, each with its number of postings. */
  ghost predicate CountsExactly(df: map<string, int>, log: seq<Doc>) {
    forall t :: CountedExactly(df, log, t)
  }

  ghost predicate CountedExactly(df: map<string, int>, log: seq<Doc>, t: string) {
    (t in df <==> FlatSearch(log, t) != []) && (t in df ==> df[t] == |FlatSearch(log, t)|)
  }

  /** One more for each term of a set. */
  function Bumped(df: map<string, int>, terms: set<string>): map<string, int> {
    map t | t in df.Keys + terms :: Frequency(df, t) + if t in terms then 1 else 0
  }

  lemma AddCounts(df: map<string, int>, log: seq<Doc>, d: Doc)
    requires Counts(df, log)
    ensures Counts(Bumped(df, Terms(d.tokens)), log + [d])
  {
    forall t ensures Counted(Bumped(df, Terms(d.tokens)), log + [d], t) {
      assert Counted(df, log, t);
      FlatSearchPush(log, d, t);
      PositionsNonEmpty(d.tokens, t);
    }
  }

  /** As long as nothing is removed, the counts stay exact. */
  lemma AddCountsExactly(df: map<string, int>, log: seq<Doc>, d: Doc)
    requires CountsExactly(df, log)
    ensures CountsExactly(Bumped(df, Terms(d.tokens)), log + [d])
  {
    forall t ensures CountedExactly(Bumped(df, Terms(d.tokens)), log + [d], t) {
      assert CountedExactly(df, log, t);
      FlatSearchPush(log, d, t);
      PositionsNonEmpty(d.tokens, t);
    }
  }

  lemma RemoveCounts(df: map<string, int>, log: seq<Doc>, id: int)
    requires Counts(df, log)
    ensures Counts(df, Without(log, id))
  {
    forall t ensures Counted(df, Without(log, id), t) {
      assert Counted(df, log, t);
      KeepFlatSearch(log, id, t);
      KeepShrinks(FlatSearch(log, t), id);
    }
  }

  /** Every logged document is among some ids. */
  ghost predicate Known(log: seq<Doc>, ids: set<int>) {
    forall d | d in log :: d.id in ids
  }

  lemma KnownPush(log: seq<Doc>, ids: set<int>, ids': set<int>, d: Doc)
    requires Known(log, ids) && ids <= ids' && d.id in ids'
    ensures Known(log + [d], ids')
  {
  }

  lemma KnownWithout(log: seq<Doc>, ids: set<int>, ids': set<int>, id: int)
    requires Known(log, ids) && ids - {id} <= ids'
    ensures Known(Without(log, id), ids')
  {
    WithoutElements(log, id);
  }

  /** Every document in the table was loaded or waits in the eviction list. */
  ghost predicate Listed(ids: set<int>, loaded: set<int>, list: seq<int>) {
    forall id | id in ids :: id in loaded || id in list
  }

  lemma ListedPush(ids: set<int>, loaded: set<int>, list: seq<int>, id: int)
    requires Listed(ids, loaded, list)
    ensures Listed(ids + {id}, loaded, list + [id])
  {
  }

  lemma ListedRest(ids: set<int>, loaded: set<int>, list: seq<int>)
    requires Listed(ids, loaded, list) && list != []
    ensures Listed(ids - {list[0]}, loaded, list[1..])
  {
    assert list == [list[0]] + list[1..];
  }

  /** A document with a posting for one of the terms. */
  ghost predicate Hit(log: seq<Doc>, terms: seq<string>, id: int) {
    exists i, k | 0 <= i < |terms| && 0 <= k < |FlatSearch(log, terms[i])| :: FlatSearch(log, terms[i])[k].docId == id
  }

  function DocIds(found: seq<Posting>): set<int> {
    set k | 0 <= k < |found| :: found[k].docId
  }

  /** Exactly the documents with a posting for one of the terms. */
  ghost predicate Hits(log: seq<Doc>, terms: seq<string>, ids: set<int>) {
    forall id :: id in ids <==> Hit(log, terms, id)
  }

  lemma HitPush(log: seq<Doc>, terms: seq<string>, t: string, id: int)
    ensures Hit(log, terms + [t], id) <==> Hit(log, terms, id) || id in DocIds(FlatSearch(log, t))
  {
    var more := terms + [t];
    if Hit(log, more, id) {
      var i, k :| 0 <= i < |more| && 0 <= k < |FlatSearch(log, more[i])| && FlatSearch(log, more[i])[k].docId == id;
      assert if i < |terms| then more[i] == terms[i] else more[i] == t;
    }
    if Hit(log, terms, id) {
      var i, k :| 0 <= i < |terms| && 0 <= k < |FlatSearch(log, terms[i])| && FlatSearch(log, terms[i])[k].docId == id;
      assert more[i] == terms[i];
    }
    if id in DocIds(FlatSearch(log, t)) {
      var k :| 0 <= k < |FlatSearch(log, t)| && FlatSearch(log, t)[k].docId == id;
      assert more[|terms|] == t;
    }
  }

  lemma HitsPush(log: seq<Doc>, terms: seq<string>, ids: set<int>, t: string)
    requires Hits(log, terms, ids)
    ensures Hits(log, terms + [t], ids + DocIds(FlatSearch(log, t)))
  {
    forall id ensures id in ids + DocIds(FlatSearch(log, t)) <==> Hit(log, terms + [t], id) {
      HitPush(log, terms, t, id);
    }
  }

  lemma FoundAreKnown(log: seq<Doc>, ids: set<int>, t: string)
    requires Known(log, ids)
    ensures DocIds(FlatSearch(log, t)) <= ids
  {
    forall k | 0 <= k < |FlatSearch(log, t)| ensures FlatSearch(log, t)[k].docId in ids {
      FlatSearchIds(log, t, k);
    }
  }

  /** The counts of the terms of a set that have live postings. */
  function Recount(log: seq<Doc>, terms: set<string>): map<string, int> {
    map t | t in terms && FlatSearch(log, t) != [] :: |FlatSearch(log, t)|
  }

  lemma RecountOf(log: seq<Doc>, terms: set<string>, t: string)
    ensures t in Recount(log, terms) <==> t in terms && FlatSearch(log, t) != []
    ensures t in Recount(log, terms) ==> Recount(log, terms)[t] == |FlatSearch(log, t)|
  {
  }

  lemma RecountOneMore(log: seq<Doc>, terms: set<string>, t: string)
    ensures var found := FlatSearch(log, t);
            Recount(log, terms + {t}) == if found == [] then Recount(log, terms) else Recount(log, terms)[t := |found|]
  {
    var found := FlatSearch(log, t);
    var all := Recount(log, terms + {t});
    var r := if found == [] then Recount(log, terms) else Recount(log, terms)[t := |found|];
    forall u ensures u in all <==> u in r {
      RecountOf(log, terms, u);
      RecountOf(log, terms + {t}, u);
    }
    forall u | u in all ensures all[u] == r[u] {
      RecountOf(log, terms, u);
      RecountOf(log, terms + {t}, u);
    }
  }

  lemma RecountIsExact(df: map<string, int>, log: seq<Doc>)
    requires Counts(df, log)
    ensures CountsExactly(Recount(log, df.Keys), log) && Counts(Recount(log, df.Keys), log)
  {
    forall t ensures Counted(Recount(log, df.Keys), log, t) && CountedExactly(Recount(log, df.Keys), log, t) {
      assert Counted(df, log, t);
    }
  }

  lemma BumpedOneMore(df: map<string, int>, terms: set<string>, t: string)
    requires t !in terms
    ensures Bumped(df, terms + {t}) == Bumped(df, terms)[t := Frequency(Bumped(df, terms), t) + 1]
  {
  }

  /** A log without the ids that left a table. */
  ghost predicate Dropped(log: seq<Doc>, log': seq<Doc>, ids: set<int>, ids': set<int>) {
    ids' <= ids && log' == WithoutAll(log, ids - ids')
  }

  lemma DroppedNone(log: seq<Doc>, ids: set<int>)
    ensures Dropped(log, log, ids, ids)
  {
    WithoutNone(log);
    assert ids - ids == {};
  }

  lemma DroppedOneMore(log: seq<Doc>, log': seq<Doc>, ids: set<int>, ids': set<int>, id: int)
    requires Dropped(log, log', ids, ids')
    ensures Dropped(log, if id in ids' then Without(log', id) else log', ids, ids' - {id})
  {
    if id in ids' {
      WithoutOneMore(log, ids - ids', id);
      assert ids - (ids' - {id}) == ids - ids' + {id};
    } else {
      assert ids' - {id} == ids';
    }
  }

  class InvertedIndex {
    const segments: SegmentManager
    var docs: map<int, DocInfo>
    var termDF: map<string, int>
    var maxDocs: int
    var evictList: seq<int>
    var closed: bool
    ghost var loaded: set<int>   // ids read back from storage when the index was opened
    ghost var bare: set<int>     // ids added without document information

    ghost predicate Valid()
      reads this`docs, this`termDF, this`evictList, this`loaded, this`bare, segments, segments.segments
    {
      && Sound()
      && Known(segments.log, docs.Keys + bare)
      && Listed(docs.Keys, loaded, evictList)
    }

    /** The segments stand for their log, and the frequencies count it. */
    ghost predicate Sound()
      reads this`termDF, segments, segments.segments
    {
      segments.Valid() && Counts(termDF, segments.log)
    }

    constructor (stored: map<int, DocInfo>)
      ensures Valid() && fresh(segments) && fresh(segments.segments)
      ensures docs == stored && loaded == stored.Keys && bare == {} && segments.log == [] && !closed
    {
      segments := new SegmentManager(DefaultSegmentSize, 10);
      docs, termDF := stored, map[];
      maxDocs := 100000;
      evictList := [];
      closed := false;
      loaded, bare := stored.Keys, {};
    }

    /** Adds one to the frequency of each distinct term. */
    method CountTerms(tokens: seq<Token>)
      modifies this`termDF
      ensures termDF == Bumped(old(termDF), Terms(tokens))
    {
      var seen: set<string> := {};
      ghost var before := termDF;
      for i := 0 to |tokens|
        invariant seen == Terms(tokens[..i])
        invariant termDF == Bumped(before, seen)
      {
        var t := tokens[i].term;
        FirstsPlusOne(tokens, i);
        TermsPush(tokens[..i], tokens[i]);
        if t !in seen {
          BumpedOneMore(before, seen, t);
          termDF := termDF[t := Frequency(termDF, t) + 1];
          seen := seen + {t};
        } else {
          assert seen + {t} == seen;
        }
      }
      assert tokens[..|tokens|] == tokens;
    }

    /** The part of an add that touches segments and frequencies. */
    method IndexTokens(docId: int, tokens: seq<Token>)
      requires Sound()
      modifies this`termDF, segments, segments.segments
      ensures Sound()
      ensures segments.log == old(segments.log) + [Doc(docId, tokens)]
      ensures forall i | 0 <= i < |segments.segments| ::
                segments.segments[i] in old(segments.segments) || fresh(segments.segments[i])
    {
      AddCounts(termDF, segments.log, Doc(docId, tokens));
      segments.AddDocument(docId, tokens);
      CountTerms(tokens);
    }

    /** Adds tokens under an id, with no document information. */
    method AddDocument(docId: int, tokens: seq<Token>, quotaExceeded: bool) returns (status: Status)
      requires Valid()
      modifies this`termDF, this`bare, segments, segments.segments
      ensures Valid()
      ensures status == if closed then Closed else if quotaExceeded then QuotaExceeded else Ok
      ensures segments.log == old(segments.log) + if status.Ok? then [Doc(docId, tokens)] else []
      ensures bare == old(bare) + if status.Ok? then {docId} else {}
      ensures forall i | 0 <= i < |segments.segments| ::
                segments.segments[i] in old(segments.segments) || fresh(segments.segments[i])
    {
      if closed { return Closed; }
      if quotaExceeded { return QuotaExceeded; }
      KnownPush(segments.log, docs.Keys + bare, docs.Keys + (bare + {docId}), Doc(docId, tokens));
      IndexTokens(docId, tokens);
      bare := bare + {docId};
      return Ok;
    }

    /** Evicts in list order until the table fits or the list is used up. */
    method EvictExcessDocs()
      requires Valid()
      modifies this`docs, this`evictList, segments, segments.segments
      ensures Valid() && segments.segments == old(segments.segments)
      ensures |docs| <= Max(maxDocs, |loaded|)
      ensures (docs, evictList) == Eviction(old(docs), old(evictList), maxDocs)
      ensures segments.log == WithoutAll(old(segments.log), old(docs).Keys - docs.Keys)
    {
      DroppedNone(segments.log, docs.Keys);
      while |docs| > maxDocs && |evictList| > 0
        invariant Valid() && segments.segments == old(segments.segments)
        invariant Eviction(docs, evictList, maxDocs) == Eviction(old(docs), old(evictList), maxDocs)
        invariant Dropped(old(segments.log), segments.log, old(docs).Keys, docs.Keys)
        decreases |evictList|
      {
        DroppedOneMore(old(segments.log), segments.log, old(docs).Keys, docs.Keys, evictList[0]);
        EvictOldest();
      }
      FitsOrLoaded();
    }

    lemma FitsOrLoaded()
      requires Valid() && (|docs| <= maxDocs || evictList == [])
      ensures |docs| <= Max(maxDocs, |loaded|)
    {
      if |docs| > maxDocs {
        assert forall id | id in docs.Keys :: id in loaded;
        SubsetSize(docs.Keys, loaded);
        assert |docs| == |docs.Keys|;
      }
    }

    /** Takes the oldest entry off the list and, if its document is still there, drops the document. */
    method EvictOldest()
      requires Valid() && |evictList| > 0
      modifies this`docs, this`evictList, segments, segments.segments
      ensures Valid() && segments.segments == old(segments.segments)
      ensures evictList == old(evictList)[1..] && docs == old(docs) - {old(evictList)[0]}
      ensures docs.Keys == old(docs).Keys - {old(evictList)[0]}
      ensures segments.log == if old(evictList)[0] in old(docs).Keys then Without(old(segments.log), old(evictList)[0])
                              else old(segments.log)
    {
      var evictId := evictList[0];
      ListedRest(docs.Keys, loaded, evictList);
      assert (docs - {evictId}).Keys == docs.Keys - {evictId};
      evictList := evictList[1..];
      if evictId in docs {
        Forget(evictId);
      } else {
        assert docs - {evictId} == docs;
      }
    }

    /** Drops an id from the segments and from the document table. */
    method Forget(docId: int)
      requires Sound()
      requires Known(segments.log, docs.Keys + bare)
      modifies this`docs, segments, segments.segments
      ensures Sound() && segments.segments == old(segments.segments)
      ensures segments.log == Without(old(segments.log), docId) && docs == old(docs) - {docId}
      ensures Known(segments.log, docs.Keys + (bare - {docId}))
    {
      KnownWithout(segments.log, docs.Keys + bare, (docs - {docId}).Keys + (bare - {docId}), docId);
      DropPostings(docId);
      docs := docs - {docId};
    }

    method DropPostings(docId: int)
      requires Sound()
      modifies segments, segments.segments
      ensures Sound() && segments.segments == old(segments.segments)
      ensures segments.log == Without(old(segments.log), docId)
    {
      RemoveCounts(termDF, segments.log, docId);
      segments.DeleteDocument(docId);
    }

    method SetMaxDocs(max: int)
      requires Valid()
      modifies this`maxDocs, this`docs, this`evictList, segments, segments.segments
      ensures Valid() && maxDocs == max && |docs| <= Max(max, |loaded|)
      ensures (docs, evictList) == Eviction(old(docs), old(evictList), max)
      ensures segments.log == WithoutAll(old(segments.log), old(docs).Keys - docs.Keys)
    {
      maxDocs := max;
      EvictExcessDocs();
    }

    /** Adds a document with its information, then evicts: afterwards the log is the old one and the new document,
        without the documents that eviction dropped from the table. */
    method AddDocumentWithInfo(docId: int, info: DocInfo, tokens: seq<Token>, quotaExceeded: bool, persisted: bool)
      returns (status: Status)
      requires Valid()
      modifies this`docs, this`termDF, this`evictList, segments, segments.segments
      ensures Valid()
      ensures status == if closed then Closed else if quotaExceeded then QuotaExceeded
                        else if persisted then Ok else StorageFailed
      ensures Refuses(status) ==> docs == old(docs) && termDF == old(termDF) && evictList == old(evictList)
      ensures Refuses(status) ==> segments.log == old(segments.log)
      ensures !Refuses(status) ==> |docs| <= Max(maxDocs, |loaded|)
      ensures !Refuses(status) ==>
                (docs, evictList)
                == Eviction(old(docs)[docId := info.(length := |tokens|)], old(evictList) + [docId], maxDocs)
      ensures !Refuses(status) ==>
                segments.log
                == WithoutAll(old(segments.log) + [Doc(docId, tokens)], old(docs).Keys + {docId} - docs.Keys)
      ensures forall i | 0 <= i < |segments.segments| ::
                segments.segments[i] in old(segments.segments) || fresh(segments.segments[i])
    {
      if closed { return Closed; }
      if quotaExceeded { return QuotaExceeded; }
      RecordAndEvict(docId, info, tokens);
      return if persisted then Ok else StorageFailed;
    }

    method RecordAndEvict(docId: int, info: DocInfo, tokens: seq<Token>)
      requires Valid()
      modifies this`docs, this`termDF, this`evictList, segments, segments.segments
      ensures Valid() && |docs| <= Max(maxDocs, |loaded|)
      ensures (docs, evictList)
           == Eviction(old(docs)[docId := info.(length := |tokens|)], old(evictList) + [docId], maxDocs)
      ensures segments.log == WithoutAll(old(segments.log) + [Doc(docId, tokens)], old(docs).Keys + {docId} - docs.Keys)
      ensures forall i | 0 <= i < |segments.segments| ::
                segments.segments[i] in old(segments.segments) || fresh(segments.segments[i])
    {
      Record(docId, info, tokens);
      assert docs.Keys == old(docs).Keys + {docId};
      EvictExcessDocs();
    }

    /** The bookkeeping of an add, before eviction. */
    method Record(docId: int, info: DocInfo, tokens: seq<Token>)
      requires Valid()
      modifies this`docs, this`termDF, this`evictList, segments, segments.segments
      ensures Valid() && segments.log == old(segments.log) + [Doc(docId, tokens)]
      ensures docs == old(docs)[docId := info.(length := |tokens|)] && evictList == old(evictList) + [docId]
      ensures forall i | 0 <= i < |segments.segments| ::
                segments.segments[i] in old(segments.segments) || fresh(segments.segments[i])
    {
      NoteDocument(docId, info.(length := |tokens|), tokens);
      IndexTokens(docId, tokens);
    }

    /** Enters a document in the table and at the end of the eviction list. */
    method NoteDocument(docId: int, info: DocInfo, ghost tokens: seq<Token>)
      requires Known(segments.log, docs.Keys + bare) && Listed(docs.Keys, loaded, evictList)
      modifies this`docs, this`evictList
      ensures docs == old(docs)[docId := info] && evictList == old(evictList) + [docId]
      ensures Known(segments.log + [Doc(docId, tokens)], docs.Keys + bare) && Listed(docs.Keys, loaded, evictList)
    {
      KnownPush(segments.log, docs.Keys + bare, docs[docId := info].Keys + bare, Doc(docId, tokens));
      ListedPush(docs.Keys, loaded, evictList, docId);
      docs := docs[docId := info];
      assert docs.Keys == old(docs).Keys + {docId};
      evictList := evictList + [docId];
    }

    /** Deletes a document everywhere; its id leaves the eviction list only when its turn comes. */
    method DeleteDocument(docId: int, persisted: bool) returns (status: Status)
      requires Valid()
      modifies this`docs, this`bare, segments, segments.segments
      ensures Valid() && segments.segments == old(segments.segments)
      ensures status == if closed then Closed else if persisted then Ok else StorageFailed
      ensures status.Closed? ==> docs == old(docs) && segments.log == old(segments.log) && bare == old(bare)
      ensures !status.Closed? ==>
                && segments.log == Without(old(segments.log), docId)
                && docs == old(docs) - {docId} && bare == old(bare) - {docId}
    {
      if closed { return Closed; }
      Forget(docId);
      bare := bare - {docId};
      return if persisted then Ok else StorageFailed;
    }

    /** The documents a query can return: those with a posting for one of its terms. Each is known. */
    method Candidates(terms: seq<string>) returns (ids: set<int>)
      requires Valid()
      ensures Hits(segments.log, terms, ids)
      ensures ids <= docs.Keys + bare
    {
      ids := {};
      for i := 0 to |terms|
        invariant Hits(segments.log, terms[..i], ids)
        invariant ids <= docs.Keys + bare
      {
        var found := segments.Search(terms[i]);
        FirstsPlusOne(terms, i);
        HitsPush(segments.log, terms[..i], ids, terms[i]);
        FoundAreKnown(segments.log, docs.Keys + bare, terms[i]);
        ids := ids + DocIds(found);
      }
      assert terms[..|terms|] == terms;
    }

    /** Recounts the frequency of every counted term from the segments. */
    method UpdateTermStats()
      requires Valid()
      modifies this`termDF
      ensures Valid() && CountsExactly(termDF, segments.log)
    {
      var newDF := RecountTerms();
      RecountIsExact(termDF, segments.log);
      termDF := newDF;
    }

    /** Searches for every counted term, in any order, and keeps the number of what is found, if any. */
    method RecountTerms() returns (newDF: map<string, int>)
      requires segments.Valid()
      ensures newDF == Recount(segments.log, termDF.Keys)
    {
      newDF := map[];
      var left := termDF.Keys;
      ghost var done: set<string> := {};
      while left != {}
        invariant done + left == termDF.Keys
        invariant newDF == Recount(segments.log, done)
        decreases |left|
      {
        var term :| term in left;
        var found := segments.Search(term);
        RecountOneMore(segments.log, done, term);
        if |found| > 0 {
          newDF := newDF[term := |found|];
        }
        done, left := done + {term}, left - {term};
      }
      assert done == termDF.Keys;
    }

    /** A compaction: nothing with a single segment, otherwise a merge and then a recount. */
    method RunCompaction()
      requires Valid()
      modifies this`termDF, segments
      ensures Valid() && segments.log == old(segments.log)
      ensures |old(segments.segments)| <= 1 ==> termDF == old(termDF) && segments.segments == old(segments.segments)
      ensures |old(segments.segments)| > 1 ==> CountsExactly(termDF, segments.log) && |segments.segments| == 2
    {
      if |segments.segments| <= 1 {
        return;
      }
      segments.MergeSegments();
      UpdateTermStats();
    }
  }

  /** The table and the list that eviction leaves. */
  function Eviction(docs: map<int, DocInfo>, list: seq<int>, max: int): (map<int, DocInfo>, seq<int>)
    decreases |list|
  {
    if |docs| > max && list != [] then Eviction(docs - {list[0]}, list[1..], max) else (docs, list)
  }

  /** The table without the first `k` entries of a list. */
  ghost function Remaining(docs: map<int, DocInfo>, list: seq<int>, k: nat): map<int, DocInfo>
    requires k <= |list|
  {
    docs - set id | id in list[..k]
  }

  lemma RemainingNone(docs: map<int, DocInfo>, list: seq<int>)
    ensures Remaining(docs, list, 0) == docs
  {
  }

  lemma RemainingStep(docs: map<int, DocInfo>, list: seq<int>, k: nat)
    requires 1 <= k <= |list|
    ensures Remaining(docs, list, k) == Remaining(docs - {list[0]}, list[1..], k - 1)
  {
    assert list[..k] == [list[0]] + list[1..][..k - 1];
  }

  /** Eviction uses up the first `k` entries of the list and no more: it stops where the table fits or the list
      ends, no document outside those entries is lost, and one entry less would not do. */
  ghost predicate UsesUp(docs: map<int, DocInfo>, list: seq<int>, max: int, k: nat) {
    && k <= |list|
    && Eviction(docs, list, max) == (Remaining(docs, list, k), list[k..])
    && (|Remaining(docs, list, k)| <= max || k == |list|)
    && (k > 0 ==> |Remaining(docs, list, k - 1)| > max)
  }

  lemma UsesUpOneMore(docs: map<int, DocInfo>, list: seq<int>, max: int, k: nat)
    requires |docs| > max && 1 <= k <= |list| && UsesUp(docs - {list[0]}, list[1..], max, k - 1)
    ensures UsesUp(docs, list, max, k)
  {
    RemainingStep(docs, list, k);
    assert list[1..][k - 1..] == list[k..];
    if k > 1 {
      RemainingStep(docs, list, k - 1);
    } else {
      RemainingNone(docs, list);
    }
  }

  /** Eviction uses up the shortest prefix of the list that makes the table fit. */
  lemma {:induction false} EvictionIsShortest(docs: map<int, DocInfo>, list: seq<int>, max: int) returns (k: nat)
    ensures UsesUp(docs, list, max, k)
    decreases |list|
  {
    if |docs| > max && list != [] {
      var m := EvictionIsShortest(docs - {list[0]}, list[1..], max);
      UsesUpOneMore(docs, list, max, m + 1);
      k := m + 1;
    } else {
      k := 0;
      RemainingNone(docs, list);
    }
  }

  function Max(a: int, b: int): int {
    if a >= b then a else b
  }

  lemma SubsetSize(a: set<int>, b: set<int>)
    requires a <= b
    ensures |a| <= |b|
  {
    assert b == a + (b - a);
  }
}
