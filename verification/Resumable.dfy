/** Resumable upload sessions: offset-checked appends to a temporary file, roll-back on a bad digest, and one
    finalize. Storage faults are inputs of each call, so that runs with and without them can be told apart. */
module Resumable {

  import opened Options
  import opened MachineWords
  import opened Splitting
  import opened Strings

  /** A stored session; the fields nothing here depends on are carried along. */
  datatype Session = Session(bucket: string, key: string, offset: nat, totalSize: int, contentType: string,
                             metadata: map<string, string>, createdAt: int, expiresAt: int, checksum: string,
                             finalized: bool)

  datatype Object = Object(data: seq<Byte>, checksum: string, contentType: string, metadata: map<string, string>)

  type Objects = map<(string, string), Object>

  datatype OffsetHeader = Missing | Malformed | Offset(value: int)

  datatype Request = Request(authorized: bool, uploadId: string, bucket: string, key: string, now: int,
                             offset: OffsetHeader, checksum: string, body: seq<Byte>, finalize: bool)

  datatype Reply = AccessDenied | InvalidRequest | NoSuchUpload | UploadExpired | OffsetMismatch | BadDigest
                 | ServerError | Created(uploadId: string) | NoContent(offset: nat, checksum: string) | Stored

  /** What goes wrong during a PATCH. `broken`: the request body ends early, and `body` is what came before that.
      `unclosed`: the file cannot be closed ahead of a finalize. */
  datatype PatchFaults = PatchFaults(broken: bool, unsynced: bool, unreadable: bool, stuck: bool, unsaved: bool,
                                     unclosed: bool)

  /** What goes wrong during a finalize; `unmarked`, `unremoved` and `undeleted` are errors the code ignores. */
  datatype FinalizeFaults = FinalizeFaults(unreadable: bool, unstored: bool, unmarked: bool, unclosed: bool,
                                           unremoved: bool, undeleted: bool)

  const NoPatchFaults := PatchFaults(false, false, false, false, false, false)
  const NoFinalizeFaults := FinalizeFaults(false, false, false, false, false, false)

  /** What is true of an upload from the outside: the bodies it accepted and the contents it stored.
      `mixed`: a body was accepted while the file held bytes of a failed PATCH. `stale`: the last body was accepted
      without a new checksum. `reopened`: a store left the session open. */
  datatype Upload = Upload(bodies: seq<seq<Byte>>, stores: seq<seq<Byte>>, mixed: bool, stale: bool, reopened: bool)

  const Untouched := Upload([], [], false, false, false)

  function Flat(bodies: seq<seq<Byte>>): seq<Byte> {
    if bodies == [] then [] else Flat(bodies[..|bodies| - 1]) + bodies[|bodies| - 1]
  }

  lemma FlatPush(bodies: seq<seq<Byte>>, body: seq<Byte>)
    ensures Flat(bodies + [body]) == Flat(bodies) + body
  {
    assert (bodies + [body])[..|bodies|] == bodies;
  }

  /** The digest named by an Upload-Checksum header; empty when there is none to verify. */
  function ProvidedChecksum(header: string): string {
    var scheme := Before(header, ' ');
    if |scheme| < |header| && Lower(scheme) == "sha256" then header[|scheme| + 1..] else ""
  }

  /** The checks every request on an existing session goes through, in order. */
  function Refusal(sessions: map<string, Session>, req: Request): (r: Option<Reply>)
    ensures r.None? ==> req.uploadId in sessions
  {
    if !req.authorized then Some(AccessDenied)
    else if req.uploadId == "" then Some(InvalidRequest)
    else if req.uploadId !in sessions then Some(NoSuchUpload)
    else
      var s := sessions[req.uploadId];
      if s.bucket != req.bucket || s.key != req.key then Some(InvalidRequest)
      else if req.now > s.expiresAt then Some(UploadExpired)
      else None
  }

  /** The checks that come before a PATCH touches the file. */
  function PatchRefusal(sessions: map<string, Session>, req: Request): (r: Option<Reply>)
    ensures r.None? ==> req.uploadId in sessions && req.offset == Offset(sessions[req.uploadId].offset)
  {
    var refusal := Refusal(sessions, req);
    if refusal.Some? then refusal
    else if sessions[req.uploadId].finalized then Some(InvalidRequest)
    else if !req.offset.Offset? then Some(InvalidRequest)
    else if req.offset.value != sessions[req.uploadId].offset then Some(OffsetMismatch)
    else None
  }

  /** The checks that come before a finalize opens the file. */
  function FinalizeRefusal(sessions: map<string, Session>, req: Request): (r: Option<Reply>)
    ensures r.None? ==> req.uploadId in sessions && !sessions[req.uploadId].finalized
  {
    var refusal := Refusal(sessions, req);
    if refusal.Some? then refusal
    else if sessions[req.uploadId].finalized then Some(InvalidRequest)
    else None
  }

  /** A digest in text form, which is never empty. */
  type Digest = h: seq<Byte> -> string | forall b :: h(b) != "" ghost witness b => "0"

  /** What holds of a session, the file it may have and the upload it belongs to, whatever went wrong so far. */
  ghost predicate Kept(hash: Digest, s: Session, file: Option<seq<Byte>>, u: Upload) {
    && s.offset == |Flat(u.bodies)|
    && (file.Some? ==> s.offset <= |file.value|)
    && (file.Some? && !u.mixed ==> file.value[..s.offset] == Flat(u.bodies))
    && (!u.mixed && !u.stale && s.checksum != "" ==> s.checksum == hash(Flat(u.bodies)))
    && (file.Some? && !s.finalized && !u.reopened ==> u.stores == [])
  }

  function Lookup<K, V>(m: map<K, V>, k: K): Option<V> {
    if k in m then Some(m[k]) else None
  }

  /** No digest to verify, or one that fits the file. */
  predicate DigestOk(hash: Digest, file: seq<Byte>, provided: string, unreadable: bool) {
    provided == "" || (!unreadable && provided == hash(file))
  }

  /** The digest computed after an append: none for an empty file nobody asked about, or one that cannot be read. */
  function ComputedChecksum(hash: Digest, file: seq<Byte>, newOffset: nat, provided: string, unreadable: bool): string {
    if (provided != "" || newOffset > 0) && !unreadable then hash(file) else ""
  }

  /** The session once a body is in the file. */
  function Advanced(s: Session, body: seq<Byte>, computed: string): Session {
    s.(offset := s.offset + |body|, checksum := if computed != "" then computed else s.checksum)
  }

  /** The upload once a body is accepted into a file. */
  ghost function Accepted(u: Upload, s: Session, file: seq<Byte>, body: seq<Byte>, computed: string): Upload {
    u.(bodies := u.bodies + [body],
       mixed := u.mixed || |file| != s.offset,
       stale := computed == "" && (u.stale || body != []))
  }

  /** An accepted body keeps the invariant. */
  lemma AcceptKeeps(hash: Digest, s: Session, file: seq<Byte>, u: Upload, body: seq<Byte>, computed: string)
    requires Kept(hash, s, Some(file), u)
    requires computed == "" || computed == hash(file + body)
    ensures Kept(hash, Advanced(s, body, computed), Some(file + body), Accepted(u, s, file, body, computed))
  {
    FlatPush(u.bodies, body);
    if |file| == s.offset {
      assert file[..s.offset] == file;
      assert (file + body)[..s.offset + |body|] == file + body;
      if body == [] { assert file + body == file; }
    }
  }

  /** Bytes of a failed PATCH, or their removal, do not disturb the invariant. */
  lemma ResidueKeeps(hash: Digest, s: Session, file: seq<Byte>, u: Upload, file': seq<Byte>)
    requires Kept(hash, s, Some(file), u) && s.offset <= |file'| && file'[..s.offset] == file[..s.offset]
    ensures Kept(hash, s, Some(file'), u)
  {
  }

  lemma SameTail(a: seq<Byte>, b: seq<Byte>, tail: seq<Byte>)
    requires a + tail == b + tail
    ensures a == b
  {
    assert |a| == |b|;
    assert a == (a + tail)[..|a|];
  }

  // ---- whole states ----

  /** The sessions and temporary files, and what is true of the uploads. */
  datatype State = State(sessions: map<string, Session>, files: map<string, seq<Byte>>, uploads: map<string, Upload>)

  /** What every run keeps, whatever goes wrong: the offset counts the bytes accepted, the file starts with them unless
      mixed, the checksum is theirs unless mixed or stale, and no upload is stored twice unless reopened. */
  ghost predicate Inv(hash: Digest, st: State) {
    && st.sessions.Keys <= st.uploads.Keys
    && (forall id | id in st.sessions :: Kept(hash, st.sessions[id], Lookup(st.files, id), st.uploads[id]))
    && (forall id | id in st.uploads :: st.uploads[id].reopened || |st.uploads[id].stores| <= 1)
  }

  /** What every run without faults keeps: each open session's file is the bodies it accepted, its checksum is empty or
      theirs, and whatever was stored is the bodies accepted, once. */
  ghost predicate Exact(hash: Digest, st: State) {
    && (forall id | id in st.sessions && id in st.uploads ::
          ExactSession(hash, st.sessions[id], Lookup(st.files, id), st.uploads[id]))
    && (forall id | id in st.uploads :: StoredOnce(st.uploads[id]))
  }

  ghost predicate ExactSession(hash: Digest, s: Session, file: Option<seq<Byte>>, u: Upload) {
    && file == Some(Flat(u.bodies))
    && s.offset == |Flat(u.bodies)|
    && (s.checksum == "" || s.checksum == hash(Flat(u.bodies)))
    && u.stores == []
  }

  ghost predicate StoredOnce(u: Upload) {
    u.stores == [] || u.stores == [Flat(u.bodies)]
  }

  /** What a request to open a session says, and how long the session lasts. */
  datatype Opening = Opening(bucket: string, key: string, totalSize: int, contentType: string,
                             metadata: map<string, string>, now: int, lifetime: int)

  /** A session as it is opened: nothing uploaded, no checksum, not finalized. */
  function NewSession(o: Opening): Session {
    Session(o.bucket, o.key, 0, o.totalSize, o.contentType, o.metadata, o.now, o.now + o.lifetime, "", false)
  }

  ghost function Opened(st: State, id: string, o: Opening): State {
    State(st.sessions[id := NewSession(o)], st.files[id := []], st.uploads[id := Untouched])
  }

  /** Opening a session keeps both invariants. */
  lemma OpenedKeeps(hash: Digest, st: State, id: string, o: Opening)
    requires Inv(hash, st)
    ensures Inv(hash, Opened(st, id, o))
    ensures Exact(hash, st) ==> Exact(hash, Opened(st, id, o))
  {
  }

  lemma SavedAndDeleted(sessions: map<string, Session>, id: string, s: Session)
    requires id !in sessions
    ensures sessions[id := s] - {id} == sessions
  {
  }

  ghost function WithFile(st: State, id: string, file: seq<Byte>): State {
    st.(files := st.files[id := file])
  }

  lemma WithFileKeeps(hash: Digest, st: State, id: string, file: seq<Byte>)
    requires Inv(hash, st) && id in st.sessions && Kept(hash, st.sessions[id], Some(file), st.uploads[id])
    ensures Inv(hash, WithFile(st, id, file))
  {
  }

  ghost function WithSession(st: State, id: string, s: Session, file: seq<Byte>, u: Upload): State {
    State(st.sessions[id := s], st.files[id := file], st.uploads[id := u])
  }

  lemma WithSessionKeeps(hash: Digest, st: State, id: string, s: Session, file: seq<Byte>, u: Upload)
    requires Inv(hash, st)
    requires Kept(hash, s, Some(file), u) && (u.reopened || |u.stores| <= 1)
    ensures Inv(hash, WithSession(st, id, s, file, u))
  {
  }

  lemma WithSessionExact(hash: Digest, st: State, id: string, s: Session, file: seq<Byte>, u: Upload)
    requires Exact(hash, st) && ExactSession(hash, s, Some(file), u)
    ensures Exact(hash, WithSession(st, id, s, file, u))
  {
  }

  // ---- PATCH ----

  /** The digest a PATCH computes. */
  ghost function PatchDigest(hash: Digest, st: State, req: Request, unreadable: bool): string
    requires req.uploadId in st.sessions && req.uploadId in st.files
  {
    ComputedChecksum(hash, st.files[req.uploadId] + req.body, st.sessions[req.uploadId].offset + |req.body|,
                     ProvidedChecksum(req.checksum), unreadable)
  }

  /** When a PATCH reaches the file. */
  ghost predicate Reaches(st: State, req: Request) {
    PatchRefusal(st.sessions, req).None? && req.uploadId in st.files
  }

  /** When a PATCH is accepted: every check passes, all bytes arrive and are saved, and the digest the client gave,
      if any, is the digest of the whole file. */
  ghost predicate Accepts(hash: Digest, st: State, req: Request, f: PatchFaults) {
    && Reaches(st, req)
    && !f.broken && !f.unsynced && !f.unsaved
    && DigestOk(hash, st.files[req.uploadId] + req.body, ProvidedChecksum(req.checksum), f.unreadable)
  }

  /** When a PATCH is turned away for its digest, and its bytes are taken back. */
  ghost predicate RollsBack(hash: Digest, st: State, req: Request, f: PatchFaults) {
    && Reaches(st, req)
    && !f.broken && !f.unsynced && !f.stuck
    && !DigestOk(hash, st.files[req.uploadId] + req.body, ProvidedChecksum(req.checksum), f.unreadable)
  }

  /** What a PATCH is answered, unless it goes on to finalize. */
  ghost function PatchReply(hash: Digest, st: State, req: Request, f: PatchFaults): Reply {
    var refusal := PatchRefusal(st.sessions, req);
    if refusal.Some? then refusal.value
    else if !Reaches(st, req) || f.broken || f.unsynced then ServerError
    else if !DigestOk(hash, st.files[req.uploadId] + req.body, ProvidedChecksum(req.checksum), f.unreadable)
    then BadDigest
    else if f.unsaved then ServerError
    else NoContent(st.sessions[req.uploadId].offset + |req.body|, PatchDigest(hash, st, req, f.unreadable))
  }

  /** When a PATCH goes on to finalize the upload. */
  ghost predicate Finalizes(hash: Digest, st: State, req: Request, f: PatchFaults) {
    Accepts(hash, st, req, f) && req.finalize && !f.unclosed
  }

  ghost function SavedState(st: State, req: Request, computed: string): State
    requires req.uploadId in st.sessions && req.uploadId in st.files && req.uploadId in st.uploads
  {
    var s, file, u := st.sessions[req.uploadId], st.files[req.uploadId], st.uploads[req.uploadId];
    WithSession(st, req.uploadId, Advanced(s, req.body, computed), file + req.body,
                Accepted(u, s, file, req.body, computed))
  }

  /** The state after a PATCH. */
  ghost function Patched(hash: Digest, st: State, req: Request, f: PatchFaults): State
    requires Inv(hash, st)
  {
    var id := req.uploadId;
    if !Reaches(st, req) then st
    else if Accepts(hash, st, req, f) then
      SavedState(st, req, PatchDigest(hash, st, req, f.unreadable))
    else if RollsBack(hash, st, req, f) then
      assert Kept(hash, st.sessions[id], Lookup(st.files, id), st.uploads[id]);
      WithFile(st, id, st.files[id][..st.sessions[id].offset])
    else WithFile(st, id, st.files[id] + req.body)
  }

  /** The comparison of digests that the code makes. */
  lemma DigestDecides(hash: Digest, file: seq<Byte>, newOffset: nat, provided: string, unreadable: bool)
    ensures provided != "" && ComputedChecksum(hash, file, newOffset, provided, unreadable) != provided
       <==> !DigestOk(hash, file, provided, unreadable)
  {
  }

  /** Where a PATCH ends up once its bytes are in the file. */
  lemma Settled(hash: Digest, st: State, req: Request, f: PatchFaults)
    requires Inv(hash, st) && Reaches(st, req) && !f.broken && !f.unsynced
    ensures var (id, written) := (req.uploadId, st.files[req.uploadId] + req.body);
            && st.sessions[id].offset <= |written|
            && if !DigestOk(hash, written, ProvidedChecksum(req.checksum), f.unreadable) then
                 && PatchReply(hash, st, req, f) == BadDigest
                 && Patched(hash, st, req, f)
                    == if f.stuck then WithFile(st, id, written)
                       else WithFile(WithFile(st, id, written), id, written[..st.sessions[id].offset])
               else if f.unsaved then
                 Patched(hash, st, req, f) == WithFile(st, id, written) && PatchReply(hash, st, req, f) == ServerError
               else
                 Patched(hash, st, req, f) == SavedState(st, req, PatchDigest(hash, st, req, f.unreadable))
  {
    var id := req.uploadId;
    var file, n := st.files[id], st.sessions[id].offset;
    assert Kept(hash, st.sessions[id], Some(file), st.uploads[id]);
    FirstsOfAppend(file, req.body, n);
    WithFileTwice(st, id, file + req.body, file[..n]);
  }

  lemma WithFileTwice(st: State, id: string, file: seq<Byte>, file': seq<Byte>)
    ensures WithFile(WithFile(st, id, file), id, file') == WithFile(st, id, file')
  {
    assert st.files[id := file][id := file'] == st.files[id := file'];
  }

  lemma FirstsOfAppend(file: seq<Byte>, body: seq<Byte>, n: nat)
    requires n <= |file|
    ensures (file + body)[..n] == file[..n]
  {
  }

  /** Every PATCH keeps the invariant, whatever goes wrong. */
  lemma PatchedKeeps(hash: Digest, st: State, req: Request, f: PatchFaults)
    requires Inv(hash, st)
    ensures Inv(hash, Patched(hash, st, req, f))
  {
    var id := req.uploadId;
    if Reaches(st, req) {
      var s, file, u := st.sessions[id], st.files[id], st.uploads[id];
      assert Kept(hash, s, Some(file), u);
      if Accepts(hash, st, req, f) {
        var computed := PatchDigest(hash, st, req, f.unreadable);
        AcceptKeeps(hash, s, file, u, req.body, computed);
        WithSessionKeeps(hash, st, id, Advanced(s, req.body, computed), file + req.body,
                         Accepted(u, s, file, req.body, computed));
      } else if RollsBack(hash, st, req, f) {
        assert file[..s.offset][..s.offset] == file[..s.offset];
        ResidueKeeps(hash, s, file, u, file[..s.offset]);
        WithFileKeeps(hash, st, id, file[..s.offset]);
      } else {
        ResidueKeeps(hash, s, file, u, file + req.body);
        WithFileKeeps(hash, st, id, file + req.body);
      }
    }
  }

  /** Without faults a PATCH keeps every session exact. */
  lemma PatchedExact(hash: Digest, st: State, req: Request)
    requires Inv(hash, st) && Exact(hash, st)
    ensures Exact(hash, Patched(hash, st, req, NoPatchFaults))
  {
    var id := req.uploadId;
    if Accepts(hash, st, req, NoPatchFaults) {
      var s, file, u := st.sessions[id], st.files[id], st.uploads[id];
      var computed := PatchDigest(hash, st, req, false);
      FlatPush(u.bodies, req.body);
      if req.body == [] { assert file + req.body == file; }
      WithSessionExact(hash, st, id, Advanced(s, req.body, computed), file + req.body,
                       Accepted(u, s, file, req.body, computed));
    } else if RollsBack(hash, st, req, NoPatchFaults) {
      assert ExactSession(hash, st.sessions[id], Lookup(st.files, id), st.uploads[id]);
      RollbackRestores(hash, st, req, NoPatchFaults);
    }
  }

  /** A PATCH whose digest does not fit leaves everything as it was exactly when the file was as long as the offset;
      otherwise it also drops what a failed PATCH had left. */
  lemma RollbackRestores(hash: Digest, st: State, req: Request, f: PatchFaults)
    requires Inv(hash, st) && RollsBack(hash, st, req, f)
    ensures Patched(hash, st, req, f) == st <==> |st.files[req.uploadId]| == st.sessions[req.uploadId].offset
    ensures st.sessions[req.uploadId].offset <= |st.files[req.uploadId]|
    ensures Patched(hash, st, req, f)
         == WithFile(st, req.uploadId, st.files[req.uploadId][..st.sessions[req.uploadId].offset])
  {
    var id := req.uploadId;
    var file, n := st.files[id], st.sessions[id].offset;
    assert Kept(hash, st.sessions[id], Some(file), st.uploads[id]);
    if |file| == n {
      assert file[..n] == file;
      assert st.files[id := file] == st.files;
    } else {
      assert |Patched(hash, st, req, f).files[id]| == n;
    }
  }

  /** For an upload that never accepted a body over residue, an accepted PATCH leaves the bodies sent in the file
      exactly when the file was as long as the offset. */
  lemma AcceptIsExactIffNoResidue(hash: Digest, st: State, req: Request, f: PatchFaults)
    requires Inv(hash, st) && Accepts(hash, st, req, f) && !st.uploads[req.uploadId].mixed
    ensures var (id, st') := (req.uploadId, Patched(hash, st, req, f));
            st'.files[id] == Flat(st'.uploads[id].bodies) <==> |st.files[id]| == st.sessions[id].offset
  {
    var id := req.uploadId;
    var file, u := st.files[id], st.uploads[id];
    assert Kept(hash, st.sessions[id], Some(file), u);
    FlatPush(u.bodies, req.body);
    if |file| == st.sessions[id].offset { assert file[..|file|] == file; }
  }

  /** A PATCH that carries the digest of everything its client means to have uploaded is accepted only if the file then
      holds just that, unless two different files share the digest. Stored at once, it is stored as that. */
  lemma DigestGuards(hash: Digest, st: State, req: Request, f: PatchFaults)
    requires Inv(hash, st) && Accepts(hash, st, req, f)
    requires var meant := Flat(st.uploads[req.uploadId].bodies) + req.body;
             && ProvidedChecksum(req.checksum) == hash(meant)
             && (hash(st.files[req.uploadId] + req.body) == hash(meant) ==> st.files[req.uploadId] + req.body == meant)
    ensures var (id, st') := (req.uploadId, Patched(hash, st, req, f));
            && st'.files[id] == Flat(st'.uploads[id].bodies) && st'.uploads[id].mixed == st.uploads[id].mixed
            && forall g :: StoredObject(hash, st'.sessions[id], st'.files[id], g).data == Flat(st'.uploads[id].bodies)
  {
    var id := req.uploadId;
    var file, u := st.files[id], st.uploads[id];
    assert Kept(hash, st.sessions[id], Some(file), u);
    FlatPush(u.bodies, req.body);
    SameTail(file, Flat(u.bodies), req.body);
  }

  /** The state after a PATCH whose connection broke when `part` of its body had arrived. */
  ghost function Broken(st: State, req: Request, part: seq<Byte>): State
    requires Reaches(st, req)
  {
    WithFile(st, req.uploadId, st.files[req.uploadId] + part)
  }

  lemma BrokenIsPatched(hash: Digest, st: State, req: Request, part: seq<Byte>)
    requires Inv(hash, st) && Reaches(st, req)
    ensures Broken(st, req, part) == Patched(hash, st, req.(body := part), NoPatchFaults.(broken := true))
    ensures Inv(hash, Broken(st, req, part)) && Reaches(Broken(st, req, part), req)
  {
    PatchedKeeps(hash, st, req.(body := part), NoPatchFaults.(broken := true));
  }

  /** The offset check cannot see a resend: after a connection breaks, the client is told the old offset, sends its
      whole body again without a digest, is accepted, and the file holds the part that arrived twice. */
  lemma ResendAfterBreak(hash: Digest, st: State, req: Request, part: seq<Byte>)
    requires Inv(hash, st) && Reaches(st, req) && !st.uploads[req.uploadId].mixed && part != []
    requires ProvidedChecksum(req.checksum) == ""
    ensures var (id, broken) := (req.uploadId, Broken(st, req, part));
            && Inv(hash, broken) && Accepts(hash, broken, req, NoPatchFaults)
            && Patched(hash, broken, req, NoPatchFaults).files[id] == st.files[id] + part + req.body
            && Patched(hash, broken, req, NoPatchFaults).files[id] != Flat(st.uploads[id].bodies + [req.body])
  {
    BrokenIsPatched(hash, st, req, part);
    assert Kept(hash, st.sessions[req.uploadId], Some(st.files[req.uploadId]), st.uploads[req.uploadId]);
    AcceptIsExactIffNoResidue(hash, Broken(st, req, part), req, NoPatchFaults);
  }

  // ---- finalize ----

  /** Session and file are both still there after a store. */
  predicate LeavesSession(f: FinalizeFaults) {
    f.unclosed || (f.unremoved && f.undeleted)
  }

  /** The upload once a file was stored: only a session neither marked nor cleaned up can be finalized again. */
  ghost function AfterStore(u: Upload, file: seq<Byte>, f: FinalizeFaults): Upload {
    u.(stores := u.stores + [file], reopened := u.reopened || (f.unmarked && LeavesSession(f)))
  }

  /** The object stored: the file's bytes, with the session's checksum or a new one. */
  function StoredObject(hash: Digest, s: Session, data: seq<Byte>, f: FinalizeFaults): Object {
    var checksum := if s.checksum != "" then s.checksum else if f.unreadable then "" else hash(data);
    Object(data, checksum, s.contentType, s.metadata)
  }

  /** An upload that never accepted a body over residue is stored as exactly the bodies accepted when its file is as
      long as the offset, and only then; with a checksum that is not stale, the object then carries the digest of its
      own bytes. */
  lemma StoredIsSentIffNoResidue(hash: Digest, s: Session, data: seq<Byte>, u: Upload, f: FinalizeFaults)
    requires Kept(hash, s, Some(data), u) && !u.mixed
    ensures StoredObject(hash, s, data, f).data == Flat(u.bodies) <==> |data| == s.offset
    ensures |data| == s.offset && !u.stale && !f.unreadable ==> StoredObject(hash, s, data, f).checksum == hash(data)
  {
    if |data| == s.offset { assert data[..s.offset] == data; }
  }

  /** A finalize after a broken connection stores the part that arrived, whatever digest that PATCH carried: the code
      returns before it compares the digest. */
  lemma FinalizeAfterBreak(hash: Digest, st: State, req: Request, part: seq<Byte>, fin: Request, g: FinalizeFaults)
    requires Inv(hash, st) && Reaches(st, req) && !st.uploads[req.uploadId].mixed && part != []
    requires fin.uploadId == req.uploadId && Stores(Broken(st, req, part), fin, g)
    ensures var (id, broken) := (req.uploadId, Broken(st, req, part));
            && broken == Patched(hash, st, req.(body := part), NoPatchFaults.(broken := true))
            && StoredObject(hash, broken.sessions[id], broken.files[id], g).data != Flat(broken.uploads[id].bodies)
  {
    var id := req.uploadId;
    BrokenIsPatched(hash, st, req, part);
    var broken := Broken(st, req, part);
    assert Kept(hash, st.sessions[id], Some(st.files[id]), st.uploads[id]);
    assert Kept(hash, broken.sessions[id], Some(broken.files[id]), broken.uploads[id]);
    StoredIsSentIffNoResidue(hash, broken.sessions[id], broken.files[id], broken.uploads[id], g);
  }

  /** When a finalize hands the file to the object store. */
  ghost predicate Stores(st: State, req: Request, f: FinalizeFaults) {
    FinalizeRefusal(st.sessions, req).None? && req.uploadId in st.files && !f.unstored
  }

  /** What a finalize is answered. */
  ghost function FinalizeReply(st: State, req: Request, f: FinalizeFaults): Reply {
    var refusal := FinalizeRefusal(st.sessions, req);
    if refusal.Some? then refusal.value else if Stores(st, req, f) && !f.unclosed then Stored else ServerError
  }

  /** The objects after a finalize. */
  ghost function ObjectsAfter(hash: Digest, st: State, objects: Objects, req: Request, f: FinalizeFaults): Objects {
    if !Stores(st, req, f) then objects
    else objects[(req.bucket, req.key) := StoredObject(hash, st.sessions[req.uploadId], st.files[req.uploadId], f)]
  }

  /** The sessions once one is marked as finalized; a failure to save the mark is ignored. */
  function Marked(sessions: map<string, Session>, id: string, f: FinalizeFaults): map<string, Session>
    requires id in sessions
  {
    if f.unmarked then sessions else sessions[id := sessions[id].(finalized := true)]
  }

  /** The state after a finalize. */
  ghost function Finalized(hash: Digest, st: State, req: Request, f: FinalizeFaults): State
    requires Inv(hash, st)
  {
    var id := req.uploadId;
    if !Stores(st, req, f) then st
    else
      var marked, uploads := Marked(st.sessions, id, f), st.uploads[id := AfterStore(st.uploads[id], st.files[id], f)];
      if f.unclosed then State(marked, st.files, uploads)
      else
        State(if f.undeleted then marked else marked - {id}, if f.unremoved then st.files else st.files - {id}, uploads)
  }

  /** A store keeps what holds of the session, if it stays, and of the upload. */
  lemma StoreKeeps(hash: Digest, s: Session, file: seq<Byte>, u: Upload, f: FinalizeFaults)
    requires Kept(hash, s, Some(file), u) && !s.finalized && (u.reopened || |u.stores| <= 1)
    ensures var (s', u') := (if f.unmarked then s else s.(finalized := true), AfterStore(u, file, f));
            && Kept(hash, s', None, u') && (LeavesSession(f) ==> Kept(hash, s', Some(file), u'))
            && (u'.reopened || |u'.stores| <= 1)
  {
  }

  /** Every finalize keeps the invariant, whatever goes wrong. */
  lemma FinalizedKeeps(hash: Digest, st: State, req: Request, f: FinalizeFaults)
    requires Inv(hash, st)
    ensures Inv(hash, Finalized(hash, st, req, f))
  {
    var id := req.uploadId;
    if Stores(st, req, f) {
      StoreKeeps(hash, st.sessions[id], st.files[id], st.uploads[id], f);
    }
  }

  /** After a store, a finalize of the same upload that is not refused for another reason stores it again exactly when
      the first one left the session unmarked and neither file nor session went away. */
  lemma StoresAgainExactlyWhenReopened(hash: Digest, st: State, req: Request, f: FinalizeFaults, again: Request,
                                       g: FinalizeFaults)
    requires Inv(hash, st) && Stores(st, req, f)
    requires again.uploadId == req.uploadId && FinalizeRefusal(st.sessions, again).None? && !g.unstored
    ensures Stores(Finalized(hash, st, req, f), again, g) <==> f.unmarked && LeavesSession(f)
  {
  }

  /** The same finalize sent twice then stores the upload twice. */
  lemma StoredTwice(hash: Digest, st: State, req: Request, f: FinalizeFaults, g: FinalizeFaults)
    requires Inv(hash, st) && Stores(st, req, f) && f.unmarked && LeavesSession(f) && !g.unstored
    ensures var st' := Finalized(hash, st, req, f);
            && Inv(hash, st')
            && Finalized(hash, st', req, g).uploads[req.uploadId].stores
               == st.uploads[req.uploadId].stores + [st.files[req.uploadId], st.files[req.uploadId]]
  {
    FinalizedKeeps(hash, st, req, f);
    StoresAgainExactlyWhenReopened(hash, st, req, f, req, g);
    var file, stores := st.files[req.uploadId], st.uploads[req.uploadId].stores;
    assert stores + [file] + [file] == stores + [file, file];
  }

  /** Without faults a finalize keeps every session exact, and what it stored is the bodies accepted. */
  lemma FinalizedExact(hash: Digest, st: State, req: Request)
    requires Inv(hash, st) && Exact(hash, st)
    ensures Exact(hash, Finalized(hash, st, req, NoFinalizeFaults))
    ensures Stores(st, req, NoFinalizeFaults) ==> st.files[req.uploadId] == Flat(st.uploads[req.uploadId].bodies)
    ensures Stores(st, req, NoFinalizeFaults) ==> req.uploadId !in Finalized(hash, st, req, NoFinalizeFaults).sessions
  {
  }

  /** What a PATCH without faults may leave, finalized or not. */
  ghost predicate ExactlyAfter(hash: Digest, st: State, st': State) {
    Inv(hash, st') && Exact(hash, st') && st'.uploads.Keys == st.uploads.Keys
  }

  lemma ExactAfterPatch(hash: Digest, st: State, req: Request)
    requires Inv(hash, st) && Exact(hash, st)
    ensures ExactlyAfter(hash, st, Patched(hash, st, req, NoPatchFaults))
    ensures ExactlyAfter(hash, st, Finalized(hash, Patched(hash, st, req, NoPatchFaults), req, NoFinalizeFaults))
  {
    var st' := Patched(hash, st, req, NoPatchFaults);
    PatchedKeeps(hash, st, req, NoPatchFaults);
    PatchedExact(hash, st, req);
    PatchedUploads(hash, st, req, NoPatchFaults);
    FinalizedKeeps(hash, st', req, NoFinalizeFaults);
    FinalizedExact(hash, st', req);
    FinalizedUploads(hash, st', req, NoFinalizeFaults);
  }

  lemma PatchedUploads(hash: Digest, st: State, req: Request, f: PatchFaults)
    requires Inv(hash, st)
    ensures Patched(hash, st, req, f).uploads.Keys == st.uploads.Keys
  {
  }

  lemma FinalizedUploads(hash: Digest, st: State, req: Request, f: FinalizeFaults)
    requires Inv(hash, st)
    ensures Finalized(hash, st, req, f).uploads.Keys == st.uploads.Keys
  {
  }

  // ---- the handler ----

  datatype Call = Create(authorized: bool, id: string, opening: Opening) | Patch(req: Request) | Finalize(req: Request)

  /** Identifiers of new sessions are new: not in use, and no two the same. */
  ghost predicate NewIds(calls: seq<Call>, used: set<string>) {
    && (forall i | 0 <= i < |calls| && calls[i].Create? :: calls[i].id !in used)
    && (forall i, j | 0 <= i < j < |calls| && calls[i].Create? && calls[j].Create? :: calls[i].id != calls[j].id)
  }

  class UploadHandler {
    const hash: Digest
    var sessions: map<string, Session>
    var files: map<string, seq<Byte>>
    var objects: Objects
    ghost var uploads: map<string, Upload>

    ghost function Now(): State
      reads this`sessions, this`files, this`uploads
    {
      State(sessions, files, uploads)
    }

    ghost predicate Valid()
      reads this`sessions, this`files, this`uploads
    {
      Inv(hash, Now())
    }

    constructor (hash: Digest)
      ensures Valid() && Now() == State(map[], map[], map[]) && objects == map[] && this.hash == hash
    {
      this.hash := hash;
      sessions, files, objects, uploads := map[], map[], map[], map[];
    }

    /** Opens a session with an empty file under an identifier never used before. */
    method HandleCreateSession(authorized: bool, uploadId: string, o: Opening, saveFails: bool, fileFails: bool)
      returns (r: Reply)
      requires Valid() && uploadId !in uploads
      modifies this`sessions, this`files, this`uploads
      ensures Valid()
      ensures r == if !authorized then AccessDenied
                   else if saveFails || fileFails then ServerError else Created(uploadId)
      ensures Now() == if r.Created? then old(Opened(Now(), uploadId, o)) else old(Now())
    {
      if !authorized {
        return AccessDenied;
      }
      if saveFails {
        return ServerError;
      }
      OpenedKeeps(hash, Now(), uploadId, o);
      sessions := sessions[uploadId := NewSession(o)];
      if fileFails {
        SavedAndDeleted(old(sessions), uploadId, NewSession(o));
        sessions := sessions - {uploadId};
        return ServerError;
      }
      files := files[uploadId := []];
      uploads := uploads[uploadId := Untouched];
      return Created(uploadId);
    }

    /** A PATCH up to its reply or its finalize. */
    method Append(req: Request, f: PatchFaults) returns (r: Reply)
      requires Valid()
      modifies this`sessions, this`files, this`uploads
      ensures Valid() && Now() == old(Patched(hash, Now(), req, f)) && r == old(PatchReply(hash, Now(), req, f))
      ensures r.NoContent? <==> old(Accepts(hash, Now(), req, f))
      ensures r.BadDigest? && !f.stuck ==> old(RollsBack(hash, Now(), req, f))
      ensures r.NoContent? ==> r.offset == sessions[req.uploadId].offset
    {
      PatchedKeeps(hash, Now(), req, f);
      var refusal := PatchRefusal(sessions, req);
      if refusal.Some? {
        return refusal.value;
      }
      if req.uploadId !in files {
        return ServerError;
      }
      r := Write(req, f);
    }

    method Write(req: Request, f: PatchFaults) returns (r: Reply)
      requires Valid() && Reaches(Now(), req)
      modifies this`sessions, this`files, this`uploads
      ensures Now() == old(Patched(hash, Now(), req, f)) && r == old(PatchReply(hash, Now(), req, f))
      ensures r.NoContent? ==> r.offset == sessions[req.uploadId].offset
    {
      files := files[req.uploadId := files[req.uploadId] + req.body];
      if f.broken || f.unsynced {
        return ServerError;
      }
      r := Settle(req, f, old(Now()));
    }

    /** Checks the digest of the file and saves the session, or takes the body back. */
    method Settle(req: Request, f: PatchFaults, ghost st: State) returns (r: Reply)
      requires Inv(hash, st) && Reaches(st, req) && !f.broken && !f.unsynced
      requires Now() == WithFile(st, req.uploadId, st.files[req.uploadId] + req.body)
      modifies this`sessions, this`files, this`uploads
      ensures Now() == Patched(hash, st, req, f) && r == PatchReply(hash, st, req, f)
      ensures r.NoContent? ==> r.offset == sessions[req.uploadId].offset
    {
      var id := req.uploadId;
      var session, provided := sessions[id], ProvidedChecksum(req.checksum);
      var newOffset := session.offset + |req.body|;
      var computed := "";
      if (provided != "" || newOffset > 0) && !f.unreadable {
        computed := hash(files[id]);
      }
      DigestDecides(hash, files[id], newOffset, provided, f.unreadable);
      Settled(hash, st, req, f);
      if provided != "" && computed != provided {
        if !f.stuck {
          TakeBack(id, session.offset);
        }
        return BadDigest;
      }
      if f.unsaved {
        return ServerError;
      }
      Save(req, computed, st);
      return NoContent(newOffset, computed);
    }

    /** Cuts a file back to the offset of its session. */
    method TakeBack(id: string, offset: nat)
      requires id in files && offset <= |files[id]|
      modifies this`files
      ensures Now() == old(WithFile(Now(), id, files[id][..offset]))
    {
      files := files[id := files[id][..offset]];
    }

    method Save(req: Request, computed: string, ghost st: State)
      requires req.uploadId in st.sessions && req.uploadId in st.files && req.uploadId in st.uploads
      requires Now() == WithFile(st, req.uploadId, st.files[req.uploadId] + req.body)
      modifies this`sessions, this`uploads
      ensures Now() == SavedState(st, req, computed)
    {
      var id := req.uploadId;
      uploads := uploads[id := Accepted(uploads[id], sessions[id], st.files[id], req.body, computed)];
      sessions := sessions[id := Advanced(sessions[id], req.body, computed)];
    }

    /** A PATCH, which may end in a finalize. */
    method HandlePatch(req: Request, f: PatchFaults, g: FinalizeFaults) returns (r: Reply)
      requires Valid()
      modifies this
      ensures Valid()
      ensures old(Finalizes(hash, Now(), req, f)) ==>
                var st := old(Patched(hash, Now(), req, f));
                && Inv(hash, st) && Now() == Finalized(hash, st, req, g)
                && objects == ObjectsAfter(hash, st, old(objects), req, g) && r == FinalizeReply(st, req, g)
      ensures !old(Finalizes(hash, Now(), req, f)) ==>
                && Now() == old(Patched(hash, Now(), req, f)) && objects == old(objects)
                && r == if old(Accepts(hash, Now(), req, f)) && req.finalize then ServerError
                        else old(PatchReply(hash, Now(), req, f))
    {
      r := Append(req, f);
      if r.NoContent? && req.finalize {
        if f.unclosed {
          return ServerError;
        }
        r := HandleFinalize(req, g);
      }
    }

    /** Reports the progress of a session: the offset is the number of bytes accepted. */
    method HandleHead(req: Request) returns (r: Reply)
      requires Valid()
      ensures r.NoContent? <==> Refusal(sessions, req).None?
      ensures r.NoContent? ==> req.uploadId in uploads && r.offset == |Flat(uploads[req.uploadId].bodies)|
      ensures r.NoContent? ==> r.checksum == sessions[req.uploadId].checksum
      ensures !r.NoContent? ==> r == Refusal(sessions, req).value
    {
      var refusal := Refusal(sessions, req);
      if refusal.Some? {
        return refusal.value;
      }
      return NoContent(sessions[req.uploadId].offset, sessions[req.uploadId].checksum);
    }

    /** Stores the file as the object and closes the session. */
    method HandleFinalize(req: Request, f: FinalizeFaults) returns (r: Reply)
      requires Valid()
      modifies this
      ensures Valid() && Now() == old(Finalized(hash, Now(), req, f))
      ensures r == old(FinalizeReply(Now(), req, f))
      ensures r.Stored? <==> old(Stores(Now(), req, f)) && !f.unclosed
      ensures objects == old(ObjectsAfter(hash, Now(), objects, req, f))
    {
      FinalizedKeeps(hash, Now(), req, f);
      var refusal := FinalizeRefusal(sessions, req);
      if refusal.Some? {
        return refusal.value;
      }
      var id := req.uploadId;
      if id !in files || f.unstored {
        return ServerError;
      }
      r := StoreAndClose(req, f);
    }

    method StoreAndClose(req: Request, f: FinalizeFaults) returns (r: Reply)
      requires Valid() && Stores(Now(), req, f)
      modifies this
      ensures Now() == old(Finalized(hash, Now(), req, f))
      ensures r == if f.unclosed then ServerError else Stored
      ensures objects == old(ObjectsAfter(hash, Now(), objects, req, f))
    {
      var id := req.uploadId;
      objects := objects[(req.bucket, req.key) := StoredObject(hash, sessions[id], files[id], f)];
      uploads := uploads[id := AfterStore(uploads[id], files[id], f)];
      sessions := Marked(sessions, id, f);
      if f.unclosed {
        return ServerError;
      }
      files := if f.unremoved then files else files - {id};
      sessions := if f.undeleted then sessions else sessions - {id};
      return Stored;
    }

    /** Serves any run of calls without faults: every open session is exact at the end, and every upload was stored
        at most once, as exactly the bodies it accepted. */
    method Serve(calls: seq<Call>)
      requires Valid() && Exact(hash, Now()) && NewIds(calls, uploads.Keys)
      modifies this
      ensures Valid() && Exact(hash, Now())
    {
      for i := 0 to |calls|
        invariant Valid() && Exact(hash, Now())
        invariant forall j | i <= j < |calls| && calls[j].Create? :: calls[j].id !in uploads
      {
        match calls[i] {
          case Create(authorized, id, opening) =>
            OpenedKeeps(hash, Now(), id, opening);
            var _ := HandleCreateSession(authorized, id, opening, false, false);
          case Patch(req) =>
            PatchExactly(req);
          case Finalize(req) =>
            FinalizedExact(hash, Now(), req);
            var _ := HandleFinalize(req, NoFinalizeFaults);
        }
      }
    }

    method PatchExactly(req: Request)
      requires Valid() && Exact(hash, Now())
      modifies this
      ensures Valid() && Exact(hash, Now()) && uploads.Keys == old(uploads).Keys
    {
      ExactAfterPatch(hash, Now(), req);
      var _ := HandlePatch(req, NoPatchFaults, NoFinalizeFaults);
    }
  }
}
