/** Who may touch a resumable upload, and where what is stored ends up. */
module ResumableAccess {

  import opened MachineWords
  import opened Options
  import opened Resumable
  import opened ResumableRuns
  import opened Splitting
  import opened Strings

  // ---- one request ----

  /** The session a request names, if there is one. */
  ghost predicate NamesSession(st: State, req: Request) {
    req.uploadId != "" && req.uploadId in st.sessions
  }

  ghost predicate SamePath(s: Session, req: Request) {
    s.bucket == req.bucket && s.key == req.key
  }

  /** A request may touch the session it names: it is authorized, for the object the session was opened for, and not too
      late. */
  ghost predicate Entitled(st: State, req: Request) {
    && req.authorized && NamesSession(st, req)
    && SamePath(st.sessions[req.uploadId], req) && req.now <= st.sessions[req.uploadId].expiresAt
  }

  lemma RefusedExactlyWhenNotEntitled(st: State, req: Request)
    ensures Refusal(st.sessions, req).None? <==> Entitled(st, req)
  {
  }

  /** Nothing comes of a request. */
  ghost predicate NoEffect(hash: Digest, st: State, objects: Objects, req: Request, f: PatchFaults, g: FinalizeFaults)
    requires Inv(hash, st)
  {
    && Patched(hash, st, req, f) == st && !Accepts(hash, st, req, f)
    && Finalized(hash, st, req, g) == st && ObjectsAfter(hash, st, objects, req, g) == objects
  }

  /** Every kind of request on a session gets the same refusal. */
  ghost predicate Answers(hash: Digest, st: State, req: Request, f: PatchFaults, g: FinalizeFaults, r: Reply) {
    && PatchReply(hash, st, req, f) == r && FinalizeReply(st, req, g) == r && Refusal(st.sessions, req) == Some(r)
  }

  /** A request that is not entitled changes neither sessions, files nor objects, whatever else goes wrong, and is told
      why, the first reason in this order. */
  lemma OutsidersHaveNoEffect(hash: Digest, st: State, objects: Objects, req: Request, f: PatchFaults,
                              g: FinalizeFaults)
    requires Inv(hash, st) && !Entitled(st, req)
    ensures NoEffect(hash, st, objects, req, f, g)
    ensures !req.authorized ==> Answers(hash, st, req, f, g, AccessDenied)
    ensures req.authorized && req.uploadId == "" ==> Answers(hash, st, req, f, g, InvalidRequest)
    ensures req.authorized && req.uploadId != "" && !NamesSession(st, req) ==>
              Answers(hash, st, req, f, g, NoSuchUpload)
    ensures req.authorized && NamesSession(st, req) && !SamePath(st.sessions[req.uploadId], req) ==>
              Answers(hash, st, req, f, g, InvalidRequest)
    ensures req.authorized && NamesSession(st, req) && SamePath(st.sessions[req.uploadId], req) ==>
              Answers(hash, st, req, f, g, UploadExpired)
  {
  }

  /** A finalized session takes no PATCH and no second finalize. */
  lemma FinalizedTakesNothing(hash: Digest, st: State, objects: Objects, req: Request, f: PatchFaults,
                              g: FinalizeFaults)
    requires Inv(hash, st) && Entitled(st, req) && st.sessions[req.uploadId].finalized
    ensures NoEffect(hash, st, objects, req, f, g)
    ensures PatchReply(hash, st, req, f) == InvalidRequest && FinalizeReply(st, req, g) == InvalidRequest
  {
  }

  /** A PATCH is accepted exactly when it is entitled, the session is open and has its file, the offset is the
      session's, the digest fits if there is one, and nothing goes wrong. */
  lemma AcceptedExactly(hash: Digest, st: State, req: Request, f: PatchFaults)
    requires Inv(hash, st)
    ensures Accepts(hash, st, req, f)
       <==> && Entitled(st, req) && !st.sessions[req.uploadId].finalized && req.uploadId in st.files
            && req.offset == Offset(st.sessions[req.uploadId].offset)
            && !f.broken && !f.unsynced && !f.unsaved
            && DigestOk(hash, st.files[req.uploadId] + req.body, ProvidedChecksum(req.checksum), f.unreadable)
  {
  }

  /** It is answered with the new offset and the digest of everything in the file; with none when the file cannot be
      read, or when there is nothing yet and nobody asked. */
  lemma AcceptedIsTold(hash: Digest, st: State, req: Request, f: PatchFaults)
    requires Inv(hash, st) && Accepts(hash, st, req, f)
    ensures var (id, r) := (req.uploadId, PatchReply(hash, st, req, f));
            && r.NoContent? && r.offset == Patched(hash, st, req, f).sessions[id].offset
            && r.offset == |Flat(st.uploads[id].bodies + [req.body])|
            && r.checksum == if f.unreadable || (r.offset == 0 && ProvidedChecksum(req.checksum) == "") then ""
                             else hash(Patched(hash, st, req, f).files[id])
  {
    FlatPush(st.uploads[req.uploadId].bodies, req.body);
    assert Kept(hash, st.sessions[req.uploadId], Lookup(st.files, req.uploadId), st.uploads[req.uploadId]);
  }

  /** A PATCH at another offset changes nothing and is told so, as is one without an offset. */
  lemma WrongOffset(hash: Digest, st: State, req: Request, f: PatchFaults)
    requires Inv(hash, st) && Entitled(st, req) && !st.sessions[req.uploadId].finalized
    requires req.offset != Offset(st.sessions[req.uploadId].offset)
    ensures Patched(hash, st, req, f) == st
    ensures PatchReply(hash, st, req, f) == if req.offset.Offset? then OffsetMismatch else InvalidRequest
  {
  }

  /** The digest to verify is what follows the scheme, which has to be sha256 in any case; without one there is none. */
  lemma ChecksumHeader(scheme: string, digest: string)
    requires ' ' !in scheme
    ensures ProvidedChecksum(scheme + " " + digest) == if Lower(scheme) == "sha256" then digest else ""
    ensures ProvidedChecksum(scheme) == ""
  {
    var header := scheme + " " + digest;
    BeforeStops(scheme, ' ', digest);
    assert header == scheme + [' '] + digest;
    assert header[|scheme| + 1..] == digest;
  }

  // ---- runs ----

  /** A session is the one an opening asked for. */
  ghost predicate Asked(s: Session, o: Opening) {
    && s.bucket == o.bucket && s.key == o.key && s.contentType == o.contentType && s.metadata == o.metadata
    && s.totalSize == o.totalSize && s.createdAt == o.now && s.expiresAt == o.now + o.lifetime
  }

  /** Two states of one session. */
  ghost predicate SameSession(s: Session, s': Session) {
    && s.bucket == s'.bucket && s.key == s'.key && s.contentType == s'.contentType && s.metadata == s'.metadata
    && s.totalSize == s'.totalSize && s.createdAt == s'.createdAt && s.expiresAt == s'.expiresAt
  }

  /** Whatever session the second state has under an identifier, the first one had. */
  ghost predicate Carried(st: State, st': State, id: string) {
    id in st'.sessions ==> id in st.sessions && SameSession(st.sessions[id], st'.sessions[id])
  }

  lemma SavedCarries(st: State, req: Request, computed: string, id: string)
    requires req.uploadId in st.sessions && req.uploadId in st.files && req.uploadId in st.uploads
    ensures Carried(st, SavedState(st, req, computed), id)
  {
  }

  lemma PatchedCarries(hash: Digest, st: State, req: Request, f: PatchFaults, id: string)
    requires Inv(hash, st)
    ensures Carried(st, Patched(hash, st, req, f), id)
  {
    if Accepts(hash, st, req, f) {
      SavedCarries(st, req, PatchDigest(hash, st, req, f.unreadable), id);
    } else {
      assert Patched(hash, st, req, f).sessions == st.sessions;
    }
  }

  lemma FinalizedCarries(hash: Digest, st: State, req: Request, g: FinalizeFaults, id: string)
    requires Inv(hash, st)
    ensures Carried(st, Finalized(hash, st, req, g), id)
  {
  }

  /** The event opened the session that a state has under an identifier. */
  ghost predicate OpenedBy(st: State, id: string, e: Event) {
    e.Open? && e.id == id && id in st.sessions && Asked(st.sessions[id], e.opening)
  }

  /** A session after an event was there before, unchanged in all that the opening said, or was opened by it. */
  lemma SessionStep(hash: Digest, st: State, e: Event, id: string)
    requires Inv(hash, st)
    ensures Carried(st, After(hash, st, e), id) || OpenedBy(After(hash, st, e), id, e)
  {
    match e
    case Open(_, _) =>
    case Patch(req, f) => PatchedCarries(hash, st, req, f, id);
    case Finalize(req, g) => FinalizedCarries(hash, st, req, g, id);
  }

  ghost predicate WasOpened(st: State, id: string, run: seq<Event>, n: nat) {
    exists k | 0 <= k < n && k < |run| :: OpenedBy(st, id, run[k])
  }

  lemma CarriedOpening(st: State, st': State, id: string, run: seq<Event>, n: nat)
    requires Carried(st, st', id) && id in st'.sessions && WasOpened(st, id, run, n)
    ensures WasOpened(st', id, run, n + 1)
  {
    var k :| 0 <= k < n && k < |run| && OpenedBy(st, id, run[k]);
    assert OpenedBy(st', id, run[k]);
  }

  /** If the state has a session, an earlier event of the run opened it. */
  ghost predicate Explained(st: State, id: string, run: seq<Event>, n: nat) {
    id in st.sessions ==> WasOpened(st, id, run, n)
  }

  lemma ExplainedNext(hash: Digest, run: seq<Event>, id: string, n: nat)
    requires n < |run| && Explained(At(hash, run, n), id, run, n)
    ensures Explained(At(hash, run, n + 1), id, run, n + 1)
  {
    var st, st' := At(hash, run, n), At(hash, run, n + 1);
    AtNext(hash, run, n);
    SessionStep(hash, st, run[n], id);
    if id in st'.sessions && Carried(st, st', id) {
      CarriedOpening(st, st', id, run, n);
    }
  }

  /** In a sequence of states, the explanation passes from one to the next. */
  ghost predicate Passes(states: seq<State>, id: string, run: seq<Event>) {
    forall k | 0 <= k < |states| - 1 :: Explained(states[k], id, run, k) ==> Explained(states[k + 1], id, run, k + 1)
  }

  lemma {:induction false} ExplainedOn(states: seq<State>, id: string, run: seq<Event>, n: nat)
    requires Passes(states, id, run) && n < |states| && Explained(states[0], id, run, 0)
    ensures Explained(states[n], id, run, n)
  {
    if n > 0 {
      ExplainedOn(states, id, run, n - 1);
      assert Explained(states[n - 1], id, run, n - 1) ==> Explained(states[n - 1 + 1], id, run, n - 1 + 1);
    }
  }

  ghost function StatesOf(hash: Digest, run: seq<Event>): (states: seq<State>)
    ensures |states| == |run| + 1 && forall k | 0 <= k <= |run| :: states[k] == At(hash, run, k)
  {
    seq(|run| + 1, k requires 0 <= k <= |run| => At(hash, run, k))
  }

  /** Every session of a run was opened by an event of the run, and is still for what that asked for. */
  lemma EverySessionWasOpened(hash: Digest, run: seq<Event>, id: string, n: nat)
    requires n <= |run|
    ensures Explained(At(hash, run, n), id, run, n)
  {
    var states := StatesOf(hash, run);
    forall k | 0 <= k < |run| && Explained(states[k], id, run, k) ensures Explained(states[k + 1], id, run, k + 1) {
      ExplainedNext(hash, run, id, k);
    }
    ExplainedOn(states, id, run, n);
  }

  lemma UsesIsEntitled(hash: Digest, st: State, e: Event, id: string)
    requires Inv(hash, st) && Uses(hash, st, e, id)
    ensures Entitled(st, e.req) && e.req.uploadId == id
  {
  }

  /** In every run, whoever gets a body accepted or an upload stored is authorized, names the bucket and key the upload
      was opened for, and is in time; what is stored lies there, with the content type and metadata of the opening. */
  lemma StoredWhereOpened(hash: Digest, run: seq<Event>, id: string, n: nat, objects: Objects) returns (k: nat)
    requires n < |run| && Uses(hash, At(hash, run, n), run[n], id)
    ensures k < n && run[k].Open? && run[k].id == id
    ensures var (o, req) := (run[k].opening, run[n].req);
            && req.authorized && req.bucket == o.bucket && req.key == o.key && req.now <= o.now + o.lifetime
            && (run[n].Finalize? ==>
                  var after := ObjectsAfter(hash, At(hash, run, n), objects, req, run[n].g);
                  && (o.bucket, o.key) in after
                  && after[(o.bucket, o.key)].contentType == o.contentType
                  && after[(o.bucket, o.key)].metadata == o.metadata
                  && forall p | p in after.Keys + objects.Keys && p != (o.bucket, o.key) ::
                       p in after && p in objects && after[p] == objects[p])
  {
    UsesIsEntitled(hash, At(hash, run, n), run[n], id);
    EverySessionWasOpened(hash, run, id, n);
    k :| 0 <= k < n && k < |run| && OpenedBy(At(hash, run, n), id, run[k]);
  }
}
