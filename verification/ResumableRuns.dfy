/** Whole runs of resumable uploads, in which connections may break, digests may not fit and storage may fail. */
module ResumableRuns {

  import opened MachineWords
  import opened Options
  import opened Resumable

  /** A PATCH that asks for a finalize is a `Patch` followed by a `Finalize`. */
  datatype Event =
    | Open(id: string, opening: Opening)
    | Patch(req: Request, f: PatchFaults)
    | Finalize(req: Request, g: FinalizeFaults)

  const Nothing := State(map[], map[], map[])

  /** The state after one event; identifiers are never used again. */
  ghost function After(hash: Digest, st: State, e: Event): (r: State)
    requires Inv(hash, st)
    ensures Inv(hash, r)
  {
    match e
    case Open(id, o) => if id in st.uploads then st else OpenedKeeps(hash, st, id, o); Opened(st, id, o)
    case Patch(req, f) => PatchedKeeps(hash, st, req, f); Patched(hash, st, req, f)
    case Finalize(req, g) => FinalizedKeeps(hash, st, req, g); Finalized(hash, st, req, g)
  }

  /** The state of a run before its event number `k`. */
  ghost function At(hash: Digest, run: seq<Event>, k: nat): (st: State)
    requires k <= |run|
    ensures Inv(hash, st)
  {
    if k == 0 then Nothing else After(hash, At(hash, run, k - 1), run[k - 1])
  }

  ghost predicate AcceptsOn(hash: Digest, st: State, e: Event, id: string) {
    e.Patch? && e.req.uploadId == id && Accepts(hash, st, e.req, e.f)
  }

  ghost predicate StoresOn(st: State, e: Event, id: string) {
    e.Finalize? && e.req.uploadId == id && Stores(st, e.req, e.g)
  }

  /** The file of an open session is as long as its offset. */
  ghost predicate NoResidue(st: State, id: string) {
    id in st.sessions && id in st.files && |st.files[id]| == st.sessions[id].offset
  }

  /** The event accepts a body for the upload, or stores it. */
  ghost predicate Uses(hash: Digest, st: State, e: Event, id: string) {
    AcceptsOn(hash, st, e, id) || StoresOn(st, e, id)
  }

  /** What was accepted leaves, and what was stored is, exactly the bodies sent. */
  ghost predicate Right(hash: Digest, st: State, e: Event, id: string)
    requires Inv(hash, st) && Uses(hash, st, e, id)
  {
    if e.Patch? then After(hash, st, e).files[id] == Flat(st.uploads[id].bodies + [e.req.body])
    else StoredObject(hash, st.sessions[id], st.files[id], e.g).data == Flat(st.uploads[id].bodies)
  }

  ghost predicate Mixed(st: State, id: string) {
    id in st.uploads && st.uploads[id].mixed
  }

  /** An upload becomes mixed only by accepting a body over residue. */
  lemma MixedStep(hash: Digest, st: State, e: Event, id: string)
    requires Inv(hash, st) && Mixed(After(hash, st, e), id) && !Mixed(st, id)
    ensures AcceptsOn(hash, st, e, id) && !NoResidue(st, id)
  {
  }

  lemma RightIffNoResidue(hash: Digest, st: State, e: Event, id: string)
    requires Inv(hash, st) && Uses(hash, st, e, id) && !Mixed(st, id)
    ensures Right(hash, st, e, id) <==> NoResidue(st, id)
  {
    assert Kept(hash, st.sessions[id], Some(st.files[id]), st.uploads[id]);
    if e.Patch? {
      AcceptIsExactIffNoResidue(hash, st, e.req, e.f);
    } else {
      StoredIsSentIffNoResidue(hash, st.sessions[id], st.files[id], st.uploads[id], e.g);
    }
  }

  // ---- over a run ----

  ghost predicate RightOrUnused(hash: Digest, st: State, e: Event, id: string)
    requires Inv(hash, st)
  {
    Uses(hash, st, e, id) ==> Right(hash, st, e, id)
  }

  ghost predicate CleanOrUnused(hash: Digest, st: State, e: Event, id: string) {
    Uses(hash, st, e, id) ==> NoResidue(st, id)
  }

  /** Each of the first `n` events that accepts a body for the upload, or stores it, gives exactly the bodies sent. */
  ghost predicate AllRight(hash: Digest, run: seq<Event>, id: string, n: nat)
    requires n <= |run|
  {
    n > 0 ==> AllRight(hash, run, id, n - 1) && RightOrUnused(hash, At(hash, run, n - 1), run[n - 1], id)
  }

  /** Each of the first `n` events that accepts a body for the upload, or stores it, finds a file as long as the
      offset. */
  ghost predicate AllClean(hash: Digest, run: seq<Event>, id: string, n: nat)
    requires n <= |run|
  {
    n > 0 ==> AllClean(hash, run, id, n - 1) && CleanOrUnused(hash, At(hash, run, n - 1), run[n - 1], id)
  }

  /** One event after an upload that is not mixed: right exactly when clean, and then still not mixed. */
  lemma OneEvent(hash: Digest, st: State, e: Event, id: string)
    requires Inv(hash, st) && !Mixed(st, id)
    ensures RightOrUnused(hash, st, e, id) <==> CleanOrUnused(hash, st, e, id)
    ensures CleanOrUnused(hash, st, e, id) ==> !Mixed(After(hash, st, e), id)
  {
    if Uses(hash, st, e, id) {
      RightIffNoResidue(hash, st, e, id);
    }
    if Mixed(After(hash, st, e), id) {
      MixedStep(hash, st, e, id);
    }
  }

  /** In every run, whatever breaks: everything accepted leaves exactly the bodies sent and everything stored is exactly
      the bodies sent, if and only if each time the file was as long as the offset. */
  lemma {:induction false} RunIsRightIffNoResidue(hash: Digest, run: seq<Event>, id: string, n: nat)
    requires n <= |run|
    ensures AllRight(hash, run, id, n) <==> AllClean(hash, run, id, n)
    ensures AllClean(hash, run, id, n) ==> !Mixed(At(hash, run, n), id)
  {
    if n > 0 {
      RunIsRightIffNoResidue(hash, run, id, n - 1);
      if !Mixed(At(hash, run, n - 1), id) {
        OneEvent(hash, At(hash, run, n - 1), run[n - 1], id);
      }
    }
  }

  // ---- stored at most once ----

  ghost predicate Reopened(st: State, id: string) {
    id in st.uploads && st.uploads[id].reopened
  }

  /** The event stores the upload and leaves its session as if it had not. */
  ghost predicate LeavesOpen(st: State, e: Event, id: string) {
    StoresOn(st, e, id) && e.g.unmarked && LeavesSession(e.g)
  }

  lemma ReopenedStep(hash: Digest, st: State, e: Event, id: string)
    requires Inv(hash, st) && Reopened(After(hash, st, e), id) && !Reopened(st, id)
    ensures LeavesOpen(st, e, id)
  {
  }

  /** None of the first `n` events stores the upload and leaves its session open. */
  ghost predicate AllClosed(hash: Digest, run: seq<Event>, id: string, n: nat)
    requires n <= |run|
  {
    n > 0 ==> AllClosed(hash, run, id, n - 1) && !LeavesOpen(At(hash, run, n - 1), run[n - 1], id)
  }

  lemma StaysClosed(hash: Digest, st: State, e: Event, id: string)
    requires Inv(hash, st) && !Reopened(st, id) && !LeavesOpen(st, e, id)
    ensures !Reopened(After(hash, st, e), id)
  {
    if Reopened(After(hash, st, e), id) {
      ReopenedStep(hash, st, e, id);
    }
  }

  lemma {:induction false} ClosedRun(hash: Digest, run: seq<Event>, id: string, n: nat)
    requires n <= |run| && AllClosed(hash, run, id, n)
    ensures !Reopened(At(hash, run, n), id)
  {
    if n > 0 {
      ClosedRun(hash, run, id, n - 1);
      StaysClosed(hash, At(hash, run, n - 1), run[n - 1], id);
    }
  }

  /** In every run, whatever else goes wrong, an upload is stored at most once unless one of its stores neither marked
      the session nor removed session or file. */
  lemma StoredAtMostOnce(hash: Digest, run: seq<Event>, id: string, n: nat)
    requires n <= |run| && AllClosed(hash, run, id, n) && id in At(hash, run, n).uploads
    ensures |At(hash, run, n).uploads[id].stores| <= 1
  {
    ClosedRun(hash, run, id, n);
  }

  // ---- the length alone is not enough ----

  /** A PATCH for a session as it was opened. */
  function PatchOf(id: string, o: Opening, offset: nat, header: string, body: seq<Byte>): Request {
    Request(true, id, o.bucket, o.key, o.now, Offset(offset), header, body, false)
  }

  /** An upload in progress: its file, its bodies, and a session that still takes a PATCH. */
  ghost predicate Stands(hash: Digest, st: State, id: string, o: Opening, file: seq<Byte>, bodies: seq<seq<Byte>>) {
    && Inv(hash, st) && id != "" && o.lifetime >= 0
    && id in st.sessions && id in st.files && id in st.uploads
    && st.files[id] == file && st.uploads[id].bodies == bodies
    && var s := st.sessions[id];
       && s.bucket == o.bucket && s.key == o.key && s.expiresAt == o.now + o.lifetime
       && !s.finalized && s.offset == |Flat(bodies)|
  }

  lemma StandsOpened(hash: Digest, id: string, o: Opening)
    requires id != "" && o.lifetime >= 0
    ensures Stands(hash, After(hash, Nothing, Open(id, o)), id, o, [], [])
  {
  }

  lemma StandsReaches(hash: Digest, st: State, id: string, o: Opening, file: seq<Byte>, bodies: seq<seq<Byte>>,
                      header: string, body: seq<Byte>)
    requires Stands(hash, st, id, o, file, bodies)
    ensures Reaches(st, PatchOf(id, o, |Flat(bodies)|, header, body))
  {
  }

  lemma StandsWithFile(hash: Digest, st: State, id: string, o: Opening, file: seq<Byte>, bodies: seq<seq<Byte>>,
                       file': seq<Byte>)
    requires Stands(hash, st, id, o, file, bodies) && Inv(hash, WithFile(st, id, file'))
    ensures Stands(hash, WithFile(st, id, file'), id, o, file', bodies)
  {
  }

  lemma BreakStands(hash: Digest, st: State, id: string, o: Opening, file: seq<Byte>, bodies: seq<seq<Byte>>,
                    part: seq<Byte>)
    requires Stands(hash, st, id, o, file, bodies)
    ensures var e := Event.Patch(PatchOf(id, o, |Flat(bodies)|, "", part), NoPatchFaults.(broken := true));
            Stands(hash, After(hash, st, e), id, o, file + part, bodies)
  {
    var req, f := PatchOf(id, o, |Flat(bodies)|, "", part), NoPatchFaults.(broken := true);
    StandsReaches(hash, st, id, o, file, bodies, "", part);
    PatchedKeeps(hash, st, req, f);
    assert Patched(hash, st, req, f) == WithFile(st, id, file + part);
    StandsWithFile(hash, st, id, o, file, bodies, file + part);
  }

  lemma AcceptStands(hash: Digest, st: State, id: string, o: Opening, file: seq<Byte>, bodies: seq<seq<Byte>>,
                     body: seq<Byte>)
    requires Stands(hash, st, id, o, file, bodies)
    ensures var e := Event.Patch(PatchOf(id, o, |Flat(bodies)|, "", body), NoPatchFaults);
            AcceptsOn(hash, st, e, id) && Stands(hash, After(hash, st, e), id, o, file + body, bodies + [body])
  {
    NoHeader();
    StandsReaches(hash, st, id, o, file, bodies, "", body);
    PatchedKeeps(hash, st, PatchOf(id, o, |Flat(bodies)|, "", body), NoPatchFaults);
    FlatPush(bodies, body);
  }

  lemma NoHeader()
    ensures ProvidedChecksum("") == ""
  {
  }

  lemma RejectStands(hash: Digest, st: State, id: string, o: Opening, file: seq<Byte>, bodies: seq<seq<Byte>>,
                     header: string, body: seq<Byte>)
    requires Stands(hash, st, id, o, file, bodies)
    requires ProvidedChecksum(header) != "" && ProvidedChecksum(header) != hash(file + body)
    ensures var e := Event.Patch(PatchOf(id, o, |Flat(bodies)|, header, body), NoPatchFaults);
            && |Flat(bodies)| <= |file|
            && Stands(hash, After(hash, st, e), id, o, file[..|Flat(bodies)|], bodies)
  {
    var req := PatchOf(id, o, |Flat(bodies)|, header, body);
    StandsReaches(hash, st, id, o, file, bodies, header, body);
    PatchedKeeps(hash, st, req, NoPatchFaults);
    assert Kept(hash, st.sessions[id], Some(file), st.uploads[id]);
    assert RollsBack(hash, st, req, NoPatchFaults);
    assert Patched(hash, st, req, NoPatchFaults) == WithFile(st, id, file[..|Flat(bodies)|]);
    StandsWithFile(hash, st, id, o, file, bodies, file[..|Flat(bodies)|]);
  }

  /** A run without storage failures: a connection breaks after one byte, a body is accepted over it, a digest does not
      fit and the file is cut back to the offset, and the next body is accepted into a file as long as the offset. */
  function CutBackRun(id: string, o: Opening, wrong: string): seq<Event> {
    [Open(id, o),
     Event.Patch(PatchOf(id, o, 0, "", [1]), NoPatchFaults.(broken := true)),
     Event.Patch(PatchOf(id, o, 0, "", [2]), NoPatchFaults),
     Event.Patch(PatchOf(id, o, 1, wrong, [3]), NoPatchFaults),
     Event.Patch(PatchOf(id, o, 1, "", [4]), NoPatchFaults)]
  }

  lemma AtNext(hash: Digest, run: seq<Event>, k: nat)
    requires k < |run|
    ensures At(hash, run, k + 1) == After(hash, At(hash, run, k), run[k])
  {
  }

  lemma FlatOne(body: seq<Byte>)
    ensures Flat([body]) == body
  {
    FlatPush([], body);
  }

  lemma AfterBreak(hash: Digest, id: string, o: Opening, wrong: string, run: seq<Event>)
    requires id != "" && o.lifetime >= 0 && run == CutBackRun(id, o, wrong)
    ensures Stands(hash, At(hash, run, 2), id, o, [1], [])
  {
    AtNext(hash, run, 0);
    StandsOpened(hash, id, o);
    AtNext(hash, run, 1);
    BreakStands(hash, At(hash, run, 1), id, o, [], [], [1]);
    assert [] + [1] == [1];
  }

  lemma AfterMixing(hash: Digest, id: string, o: Opening, wrong: string, run: seq<Event>)
    requires id != "" && o.lifetime >= 0 && run == CutBackRun(id, o, wrong)
    ensures Stands(hash, At(hash, run, 3), id, o, [1, 2], [[2]])
  {
    AfterBreak(hash, id, o, wrong, run);
    AtNext(hash, run, 2);
    AcceptStands(hash, At(hash, run, 2), id, o, [1], [], [2]);
    assert [1] + [2] == [1, 2] && [] + [[2]] == [[2]];
  }

  lemma AfterCut(hash: Digest, id: string, o: Opening, wrong: string, run: seq<Event>)
    requires id != "" && o.lifetime >= 0 && run == CutBackRun(id, o, wrong)
    requires ProvidedChecksum(wrong) != "" && ProvidedChecksum(wrong) != hash([1, 2, 3])
    ensures Stands(hash, At(hash, run, 4), id, o, [1], [[2]])
  {
    AfterMixing(hash, id, o, wrong, run);
    AtNext(hash, run, 3);
    FlatOne([2]);
    assert [1, 2] + [3] == [1, 2, 3] && [1, 2][..1] == [1];
    RejectStands(hash, At(hash, run, 3), id, o, [1, 2], [[2]], wrong, [3]);
  }

  lemma WrongAlthoughAsLong(hash: Digest, st: State, id: string, o: Opening, e: Event)
    requires Stands(hash, st, id, o, [1], [[2]]) && e == Event.Patch(PatchOf(id, o, 1, "", [4]), NoPatchFaults)
    ensures Uses(hash, st, e, id) && NoResidue(st, id) && !Right(hash, st, e, id)
  {
    FlatOne([2]);
    FlatPush([[2]], [4]);
    AcceptStands(hash, st, id, o, [1], [[2]], [4]);
    assert ([1] + [4])[0] != ([2] + [4])[0];
  }

  /** In that run the last body finds a file as long as the offset, and still the file is not what was sent. */
  lemma LengthIsNotEnough(hash: Digest, id: string, o: Opening, wrong: string, run: seq<Event>)
    requires id != "" && o.lifetime >= 0 && run == CutBackRun(id, o, wrong)
    requires ProvidedChecksum(wrong) != "" && ProvidedChecksum(wrong) != hash([1, 2, 3])
    ensures Uses(hash, At(hash, run, 4), run[4], id) && NoResidue(At(hash, run, 4), id)
    ensures !Right(hash, At(hash, run, 4), run[4], id)
  {
    AfterCut(hash, id, o, wrong, run);
    WrongAlthoughAsLong(hash, At(hash, run, 4), id, o, run[4]);
  }
}
