/**
  The backup protocol over the database and the remote blob store, step by step. Any number of
  backup workers and purges interleave; every remote call and every transaction is one step, may
  fail, and may be the last one before a crash. A blob id is drawn afresh for every upload.
 */
module Protocol {
  import opened Basics
  import opened Streams
  import opened Container
  import opened Database

  /** The agent's key, as a cipher; the decompressor; and the hash of stored blobs. */
  datatype Setup = Setup(aead: Aead, gunzip: Bytes -> Gunzipped, sha: Bytes -> string)

  /** Where one processFile call stands between two of its remote calls or transactions. */
  datatype Phase =
    | Uploading(blob: BlobId, sent: Bytes, created: bool)
    | Uploaded(u: Upload)
    | Evicting(evictee: BlobId)

  /** What a purge removes from the database once it is through with the remote blobs. */
  datatype Target = Prefix(prefix: string) | Files(ids: set<nat>) | Version(f: nat, number: int)

  datatype Purge = Purge(todo: set<BlobId>, target: Target)

  /**
    The last four fields are history: blob ids ever drawn, the bytes read for each finished upload,
    ids that some purge listed for deletion, and ids of objects that a failing step left behind.
   */
  datatype System = System(db: Tables, remote: map<BlobId, Bytes>, workers: map<nat, Phase>, purges: map<nat, Purge>,
                           used: set<BlobId>, plain: map<BlobId, Bytes>, condemned: set<BlobId>, leaked: set<BlobId>)

  const START: System := System(EMPTY, map[], map[], map[], {}, map[], {}, {})

  datatype Action =
    | Begin(w: nat, blob: BlobId)
    | Send(w: nat, data: Bytes)
    | FinishUpload(w: nat, u: Upload, plain: Bytes)
    | AbortUpload(w: nat)
    | Commit(w: nat, evicted: Option<nat>)
    | CommitFails(w: nat)
    | DeleteEvicted(w: nat, ok: bool)
    | StartPurge(p: nat, target: Target)
    | PurgeBlob(p: nat, blob: BlobId, ok: bool)
    | PurgeRows(p: nat)
    | StopPurge(p: nat)
    | Touch(op: Op)
    | Crash

  function Held(phase: Phase): BlobId {
    match phase
    case Uploading(blob, _, _) => blob
    case Uploaded(u) => u.blob
    case Evicting(blob) => blob
  }

  function InFlight(s: System): set<BlobId> {
    set w | w in s.workers :: Held(s.workers[w])
  }

  function Referenced(db: Tables): set<BlobId> {
    set v | v in db.versions :: db.versions[v].blob
  }

  /** The version rows a purge is about. */
  function Rows(db: Tables, target: Target): set<nat> {
    match target
    case Prefix(prefix) => RowsOfFiles(db, FilesUnder(db, prefix))
    case Files(ids) => RowsOfFiles(db, ids)
    case Version(f, number) => set v | v in db.versions && db.versions[v].file == f && db.versions[v].number == number
  }

  function Listed(db: Tables, target: Target): set<BlobId> {
    set v | v in Rows(db, target) :: db.versions[v].blob
  }

  /** The transaction at the end of a purge; its prefix is matched again, against the rows of that moment. */
  function Removed(db: Tables, target: Target): Tables {
    match target
    case Prefix(prefix) => FilesRemoved(db, FilesUnder(db, prefix))
    case Files(ids) => FilesRemoved(db, ids)
    case Version(f, number) => if Rows(db, target) == {} then db else VersionDeleted(db, f, number)
  }

  /** The stored bytes decrypt to exactly plain, and their hash is the recorded one. */
  ghost predicate Good(k: Setup, stored: Bytes, plain: Bytes, blobHash: string) {
    DecodeBlob(k.aead, k.gunzip, stored, Eof) == (plain, Done) && k.sha(stored) == blobHash
  }

  // ---------- The steps ----------

  /** A worker starts on a file and draws a blob id. */
  ghost predicate Begins(s: System, w: nat, blob: BlobId, s': System) {
    && w !in s.workers && blob !in s.used && blob != ""
    && s' == s.(workers := s.workers[w := Uploading(blob, [], false)], used := s.used + {blob})
  }

  /** More bytes of an upload arrive at the remote object. */
  ghost predicate Sends(s: System, w: nat, data: Bytes, s': System) {
    && w in s.workers && s.workers[w].Uploading?
    && var blob, sent := s.workers[w].blob, s.workers[w].sent + data;
       s' == s.(workers := s.workers[w := Uploading(blob, sent, true)], remote := s.remote[blob := sent])
  }

  /** Upload and encryption both succeeded: the object encrypts the bytes read, its hash is known. */
  ghost predicate Finishes(k: Setup, s: System, w: nat, u: Upload, plain: Bytes, s': System) {
    && w in s.workers && s.workers[w].Uploading? && s.workers[w].created
    && u.blob == s.workers[w].blob
    && Good(k, s.workers[w].sent, plain, u.blobHash)
    && s' == s.(workers := s.workers[w := Uploaded(u)], plain := s.plain[u.blob := plain])
  }

  /** The worker gives up, on a failed upload or a failed transaction. */
  ghost predicate GivesUp(s: System, w: nat, s': System) {
    && w in s.workers
    && s' == s.(workers := s.workers - {w}, leaked := s.leaked + {Held(s.workers[w])})
  }

  ghost predicate Commits(s: System, w: nat, evicted: Option<nat>, s': System) {
    && w in s.workers && s.workers[w].Uploaded?
    && Upserted(s.db, s.workers[w].u, evicted, s'.db)
    && (evicted.Some? ==> evicted.value in s.db.versions)
    && s' == s.(db := s'.db,
                workers := if evicted.None? then s.workers - {w}
                           else s.workers[w := Evicting(s.db.versions[evicted.value].blob)])
  }

  ghost predicate DeletesEvicted(s: System, w: nat, s': System) {
    && w in s.workers && s.workers[w].Evicting?
    && s' == s.(workers := s.workers - {w}, remote := s.remote - {s.workers[w].evictee})
  }

  /** A purge lists the blobs it is going to delete. */
  ghost predicate StartsPurge(s: System, p: nat, target: Target, s': System) {
    && p !in s.purges
    && s' == s.(purges := s.purges[p := Purge(Listed(s.db, target), target)],
                condemned := s.condemned + Listed(s.db, target))
  }

  /** One remote deletion of a purge. Only the purge of a single version stops when it fails. */
  ghost predicate PurgesBlob(s: System, p: nat, blob: BlobId, ok: bool, s': System) {
    && p in s.purges && blob in s.purges[p].todo
    && var purge := s.purges[p].(todo := s.purges[p].todo - {blob});
       s' == if ok then s.(purges := s.purges[p := purge], remote := s.remote - {blob})
             else s.(purges := if purge.target.Version? then s.purges - {p} else s.purges[p := purge])
  }

  /** The transaction that ends a purge. */
  ghost predicate PurgesRows(s: System, p: nat, s': System) {
    && p in s.purges && s.purges[p].todo == {}
    && var target := s.purges[p].target;
       s' == s.(purges := s.purges - {p}, db := Removed(s.db, target),
                leaked := s.leaked + Listed(s.db, target) * s.remote.Keys)
  }

  ghost predicate StopsPurge(s: System, p: nat, s': System) {
    && p in s.purges
    && s' == s.(purges := s.purges - {p})
  }

  /** Marks and modification times. */
  ghost predicate Touches(s: System, op: Op, s': System) {
    && (op.Mark? || op.Clear? || op.Retime?)
    && Step(s.db, op, s'.db)
    && s' == s.(db := s'.db)
  }

  ghost predicate Crashes(s: System, s': System) {
    s' == s.(workers := map[], purges := map[], leaked := s.leaked + InFlight(s))
  }

  ghost predicate Next(k: Setup, s: System, act: Action, s': System) {
    match act
    case Begin(w, blob) => Begins(s, w, blob, s')
    case Send(w, data) => Sends(s, w, data, s')
    case FinishUpload(w, u, plain) => Finishes(k, s, w, u, plain, s')
    case AbortUpload(w) => w in s.workers && s.workers[w].Uploading? && GivesUp(s, w, s')
    case Commit(w, evicted) => Commits(s, w, evicted, s')
    case CommitFails(w) => w in s.workers && s.workers[w].Uploaded? && GivesUp(s, w, s')
    case DeleteEvicted(w, ok) =>
      if ok then DeletesEvicted(s, w, s') else w in s.workers && s.workers[w].Evicting? && GivesUp(s, w, s')
    case StartPurge(p, target) => StartsPurge(s, p, target, s')
    case PurgeBlob(p, blob, ok) => PurgesBlob(s, p, blob, ok, s')
    case PurgeRows(p) => PurgesRows(s, p, s')
    case StopPurge(p) => StopsPurge(s, p, s')
    case Touch(op) => Touches(s, op, s')
    case Crash => Crashes(s, s')
  }

  // ---------- What every step keeps ----------

  /** No two rows name the same blob. */
  ghost predicate RowsApart(s: System) {
    forall v, w | v in s.db.versions && w in s.db.versions && s.db.versions[v].blob == s.db.versions[w].blob :: v == w
  }

  /** Blobs in the hands of a worker are nobody else's and not yet, or no longer, in the table. */
  ghost predicate WorkersApart(s: System) {
    && (forall i, j | i in s.workers && j in s.workers && Held(s.workers[i]) == Held(s.workers[j]) :: i == j)
    && (forall i, v | i in s.workers && v in s.db.versions :: Held(s.workers[i]) != s.db.versions[v].blob)
    && (forall i | i in s.workers && !s.workers[i].Evicting? :: Held(s.workers[i]) !in s.condemned)
  }

  /** Everything known by a blob id was drawn at some time. */
  ghost predicate AllDrawn(s: System) {
    && (forall v | v in s.db.versions :: s.db.versions[v].blob in s.used)
    && (forall i | i in s.workers :: Held(s.workers[i]) in s.used)
    && s.condemned <= s.used && s.leaked <= s.used
    && "" !in s.used
  }

  /** An upload's object holds what was sent; a finished one is good. */
  ghost predicate UploadsTracked(k: Setup, s: System) {
    forall i | i in s.workers ::
      match s.workers[i]
      case Uploading(blob, sent, created) => (created <==> blob in s.remote) && (created ==> s.remote[blob] == sent)
      case Uploaded(u) => u.blob in s.remote && u.blob in s.plain
        && Good(k, s.remote[u.blob], s.plain[u.blob], u.blobHash)
      case Evicting(_) => true
  }

  /** A row's blob is good whenever it is there, and it is there unless a purge listed it. */
  ghost predicate RowsGood(k: Setup, s: System) {
    forall v | v in s.db.versions ::
      var blob := s.db.versions[v].blob;
      && blob in s.plain
      && (blob !in s.condemned ==> blob in s.remote)
      && (blob in s.remote ==> Good(k, s.remote[blob], s.plain[blob], s.db.versions[v].blobHash))
  }

  ghost predicate PurgesListed(s: System) {
    forall p | p in s.purges :: s.purges[p].todo <= s.condemned
  }

  /** Every remote object is accounted for. */
  ghost predicate Accounted(s: System) {
    forall blob | blob in s.remote :: blob in Referenced(s.db) || blob in InFlight(s) || blob in s.leaked
  }

  ghost predicate Inv(k: Setup, s: System) {
    && Sound(s.db) && RowsApart(s) && WorkersApart(s) && AllDrawn(s)
    && UploadsTracked(k, s) && RowsGood(k, s) && PurgesListed(s) && Accounted(s)
  }

  lemma StartIsGood(k: Setup)
    ensures Inv(k, START)
  {
  }

  lemma InFlightIs(s: System, blob: BlobId)
    ensures blob in InFlight(s) <==> exists w :: w in s.workers && Held(s.workers[w]) == blob
  {
  }

  lemma ReferencedIs(db: Tables, blob: BlobId)
    ensures blob in Referenced(db) <==> exists v :: v in db.versions && db.versions[v].blob == blob
  {
  }

  /** Accounting when only worker w changes and its blob stays in flight, is written off, or is gone. */
  lemma WorkerAccounted(s: System, s': System, w: nat)
    requires Accounted(s) && s'.db == s.db && s.leaked <= s'.leaked
    requires forall i | i in s.workers && i != w :: i in s'.workers && s'.workers[i] == s.workers[i]
    requires w in s.workers ==>
      || (w in s'.workers && Held(s'.workers[w]) == Held(s.workers[w]))
      || Held(s.workers[w]) in s'.leaked || Held(s.workers[w]) !in s'.remote
    requires forall blob | blob in s'.remote && blob !in s.remote :: w in s'.workers && Held(s'.workers[w]) == blob
    ensures Accounted(s')
  {
  }

  /** No object is stored under an id that was never drawn. */
  lemma RemoteIsDrawn(s: System)
    requires AllDrawn(s) && Accounted(s)
    ensures s.remote.Keys <= s.used
  {
  }

  /** Rows stay good when the objects they may rely on do not change. */
  lemma RowsStayGood(k: Setup, s: System, s': System)
    requires RowsGood(k, s) && s'.db == s.db && s.condemned <= s'.condemned
    requires forall v | v in s.db.versions :: var blob := s.db.versions[v].blob;
      && (blob in s.plain ==> blob in s'.plain && s'.plain[blob] == s.plain[blob])
      && (blob in s'.remote ==> blob in s.remote && s'.remote[blob] == s.remote[blob])
      && (blob in s.remote && blob !in s'.condemned ==> blob in s'.remote)
    ensures RowsGood(k, s')
  {
  }

  lemma NobodyElses(s: System, w: nat)
    requires WorkersApart(s) && w in s.workers
    ensures forall i | i in s.workers && i != w :: Held(s.workers[i]) != Held(s.workers[w])
    ensures forall v | v in s.db.versions :: s.db.versions[v].blob != Held(s.workers[w])
  {
  }

  lemma NobodyHasIt(s: System, blob: BlobId)
    requires AllDrawn(s) && blob !in s.used
    ensures forall i | i in s.workers :: Held(s.workers[i]) != blob
    ensures forall v | v in s.db.versions :: s.db.versions[v].blob != blob
    ensures blob !in s.condemned
  {
  }

  /** Worker w takes over, or goes on with, a blob nobody else has. */
  lemma WorkerGoesOn(s: System, s': System, w: nat)
    requires WorkersApart(s) && AllDrawn(s)
    requires s'.db == s.db && s'.condemned == s.condemned && s'.leaked == s.leaked
    requires w in s'.workers && s'.workers == s.workers[w := s'.workers[w]]
    requires var blob := Held(s'.workers[w]);
      && s.used <= s'.used <= s.used + {blob} && blob in s'.used && blob !in s.condemned && blob != ""
      && (forall i | i in s.workers && i != w :: Held(s.workers[i]) != blob)
      && (forall v | v in s.db.versions :: s.db.versions[v].blob != blob)
    ensures WorkersApart(s') && AllDrawn(s')
  {
  }

  /** Worker w leaves. */
  lemma WorkerLeaves(s: System, s': System, w: nat)
    requires WorkersApart(s) && AllDrawn(s) && w in s.workers
    requires s'.db == s.db && s'.workers == s.workers - {w} && s'.condemned == s.condemned && s'.used == s.used
    requires s.leaked <= s'.leaked <= s.leaked + {Held(s.workers[w])}
    ensures WorkersApart(s') && AllDrawn(s')
  {
  }

  // ---------- Workers ----------

  lemma BeginKeeps(k: Setup, s: System, w: nat, blob: BlobId, s': System)
    requires Inv(k, s) && Begins(s, w, blob, s')
    ensures Inv(k, s')
  {
    hide Good, Sound, InFlight, Referenced, RowsGood, WorkersApart, AllDrawn, Accounted;
    RemoteIsDrawn(s);
    NobodyHasIt(s, blob);
    WorkerGoesOn(s, s', w);
    WorkerAccounted(s, s', w);
    RowsStayGood(k, s, s');
  }

  /** What makes worker w's blob its own while an upload is under way. */
  lemma OwnBlob(s: System, w: nat)
    requires WorkersApart(s) && AllDrawn(s) && w in s.workers && !s.workers[w].Evicting?
    ensures Held(s.workers[w]) in s.used && Held(s.workers[w]) !in s.condemned && Held(s.workers[w]) != ""
    ensures forall i | i in s.workers && i != w :: Held(s.workers[i]) != Held(s.workers[w])
    ensures forall v | v in s.db.versions :: s.db.versions[v].blob != Held(s.workers[w])
  {
  }

  lemma SendKeeps(k: Setup, s: System, w: nat, data: Bytes, s': System)
    requires Inv(k, s) && Sends(s, w, data, s')
    ensures Inv(k, s')
  {
    hide Good, Sound, InFlight, Referenced, RowsGood, WorkersApart, AllDrawn, Accounted, UploadsTracked;
    OwnBlob(s, w);
    WorkerGoesOn(s, s', w);
    WorkerAccounted(s, s', w);
    RowsStayGood(k, s, s');
    OthersTracked(k, s, s', w);
  }

  /** Worker w's upload is as described, and the others' objects have not changed. */
  lemma OthersTracked(k: Setup, s: System, s': System, w: nat)
    requires UploadsTracked(k, s) && w in s.workers && w in s'.workers
    requires forall i | i in s'.workers && i != w :: i in s.workers && s'.workers[i] == s.workers[i]
    requires forall i | i in s.workers && i != w :: var blob := Held(s.workers[i]);
      && (blob in s'.remote <==> blob in s.remote) && (blob in s.remote ==> s'.remote[blob] == s.remote[blob])
      && (blob in s.plain ==> blob in s'.plain && s'.plain[blob] == s.plain[blob])
    requires match s'.workers[w]
      case Uploading(blob, sent, created) => created && blob in s'.remote && s'.remote[blob] == sent
      case Uploaded(u) => u.blob in s'.remote && u.blob in s'.plain
        && Good(k, s'.remote[u.blob], s'.plain[u.blob], u.blobHash)
      case Evicting(_) => true
    ensures UploadsTracked(k, s')
  {
  }

  /** What a finished upload changes, and what it does not. */
  lemma FinishFrame(k: Setup, s: System, w: nat, u: Upload, plain: Bytes, s': System)
    requires Finishes(k, s, w, u, plain, s')
    ensures s' == s.(workers := s.workers[w := Uploaded(u)], plain := s.plain[u.blob := plain])
    ensures w in s.workers && Held(s.workers[w]) == u.blob && s.workers[w].Uploading? && s.workers[w].created
    ensures Good(k, s.workers[w].sent, plain, u.blobHash)
    ensures RowsApart(s) ==> RowsApart(s')
    ensures PurgesListed(s) ==> PurgesListed(s')
  {
  }

  lemma FinishKeeps(k: Setup, s: System, w: nat, u: Upload, plain: Bytes, s': System)
    requires Inv(k, s) && Finishes(k, s, w, u, plain, s')
    ensures Inv(k, s')
  {
    UploadIsTracked(k, s, w);
    hide Good, Sound, InFlight, Referenced, RowsGood, WorkersApart, AllDrawn, Accounted, UploadsTracked;
    OwnBlob(s, w);
    FinishFrame(k, s, w, u, plain, s');
    hide Finishes, RowsApart, PurgesListed;
    WorkerGoesOn(s, s', w);
    WorkerAccounted(s, s', w);
    RowsStayGood(k, s, s');
    OthersTracked(k, s, s', w);
  }

  lemma UploadIsTracked(k: Setup, s: System, w: nat)
    requires UploadsTracked(k, s) && w in s.workers && s.workers[w].Uploading? && s.workers[w].created
    ensures s.workers[w].blob in s.remote && s.remote[s.workers[w].blob] == s.workers[w].sent
  {
  }

  lemma GiveUpKeeps(k: Setup, s: System, w: nat, s': System)
    requires Inv(k, s) && GivesUp(s, w, s')
    ensures Inv(k, s')
  {
    hide Good, Sound, InFlight, Referenced, RowsGood, WorkersApart, AllDrawn, Accounted;
    WorkerLeaves(s, s', w);
    WorkerAccounted(s, s', w);
    RowsStayGood(k, s, s');
  }

  lemma DeleteEvictedKeeps(k: Setup, s: System, w: nat, s': System)
    requires Inv(k, s) && DeletesEvicted(s, w, s')
    ensures Inv(k, s')
  {
    assert Held(s.workers[w]) == s.workers[w].evictee;
    hide Good, Sound, InFlight, Referenced, RowsGood, WorkersApart, AllDrawn, Accounted;
    NobodyElses(s, w);
    WorkerLeaves(s, s', w);
    WorkerAccounted(s, s', w);
    RowsStayGood(k, s, s');
    UploadsLoseNothing(k, s, s', s.workers[w].evictee);
  }

  /** An object that no upload is about disappears. */
  lemma UploadsLoseNothing(k: Setup, s: System, s': System, gone: BlobId)
    requires UploadsTracked(k, s) && s'.remote == s.remote - {gone} && s'.plain == s.plain
    requires forall i | i in s'.workers :: i in s.workers && s'.workers[i] == s.workers[i]
    requires forall i | i in s'.workers && !s'.workers[i].Evicting? :: Held(s'.workers[i]) != gone
    ensures UploadsTracked(k, s')
  {
  }

  // ---------- Purges ----------

  lemma StartPurgeKeeps(k: Setup, s: System, p: nat, target: Target, s': System)
    requires Inv(k, s) && StartsPurge(s, p, target, s')
    ensures Inv(k, s')
  {
    ListedIsReferenced(s.db, target);
    hide Good, Sound, Referenced, RowsGood, Listed;
    RowsStayGood(k, s, s');
    assert InFlight(s') == InFlight(s);
  }

  lemma ListedIsReferenced(db: Tables, target: Target)
    ensures forall blob | blob in Listed(db, target) :: exists v :: v in db.versions && db.versions[v].blob == blob
    ensures Listed(db, target) <= Referenced(db)
    ensures forall v | v in Rows(db, target) :: v in db.versions && db.versions[v].blob in Listed(db, target)
  {
  }

  lemma PurgeBlobKeeps(k: Setup, s: System, p: nat, blob: BlobId, ok: bool, s': System)
    requires Inv(k, s) && PurgesBlob(s, p, blob, ok, s')
    ensures Inv(k, s')
  {
    hide Good, Sound, Referenced, RowsGood;
    assert blob in s.condemned;
    assert InFlight(s') == InFlight(s);
    RowsStayGood(k, s, s');
    if ok {
      UploadsLoseNothing(k, s, s', blob);
    }
  }

  lemma StopPurgeKeeps(k: Setup, s: System, p: nat, s': System)
    requires Inv(k, s) && StopsPurge(s, p, s')
    ensures Inv(k, s')
  {
  }

  /** Every row left is an old one with the same blob. */
  ghost predicate Shrinks(db: Tables, db': Tables) {
    forall v | v in db'.versions ::
      v in db.versions && db'.versions[v].blob == db.versions[v].blob
        && db'.versions[v].blobHash == db.versions[v].blobHash
  }

  lemma ShrinkKeeps(k: Setup, s: System, s': System)
    requires Inv(k, s) && Sound(s'.db) && Shrinks(s.db, s'.db)
    requires s'.remote == s.remote && s'.workers == s.workers && s'.used == s.used && s'.plain == s.plain
    requires s'.condemned == s.condemned && s.leaked <= s'.leaked <= s.leaked + Referenced(s.db)
    requires forall p | p in s'.purges :: p in s.purges && s'.purges[p] == s.purges[p]
    requires forall v | v in s.db.versions ::
      v in s'.db.versions || s.db.versions[v].blob !in s.remote || s.db.versions[v].blob in s'.leaked
    ensures Inv(k, s')
  {
    hide Good, Sound;
    assert Accounted(s') by {
      forall blob | blob in s'.remote
        ensures blob in Referenced(s'.db) || blob in InFlight(s') || blob in s'.leaked
      {
        if blob in Referenced(s.db) {
          var v :| v in s.db.versions && s.db.versions[v].blob == blob;
          assert v in s'.db.versions ==> s'.db.versions[v].blob == blob;
        }
      }
    }
  }

  lemma RemovedIsSound(db: Tables, target: Target)
    requires Sound(db)
    ensures Sound(Removed(db, target))
  {
    hide Sound;
    match target {
      case Prefix(prefix) => RemoveKeepsSound(db, FilesUnder(db, prefix));
      case Files(ids) => RemoveKeepsSound(db, ids);
      case Version(f, number) => DeleteVersionKeepsSound(db, f, number);
    }
  }

  lemma RemovedShrinks(db: Tables, target: Target)
    ensures Shrinks(db, Removed(db, target))
    ensures forall v | v in db.versions && v !in Removed(db, target).versions :: v in Rows(db, target)
  {
  }

  lemma PurgeRowsKeeps(k: Setup, s: System, p: nat, s': System)
    requires Inv(k, s) && PurgesRows(s, p, s')
    ensures Inv(k, s')
  {
    var target := s.purges[p].target;
    RemovedIsSound(s.db, target);
    RemovedShrinks(s.db, target);
    ListedIsReferenced(s.db, target);
    hide Sound, Inv, Removed, Listed, Rows, Shrinks, Referenced;
    ShrinkKeeps(k, s, s');
  }

  lemma TouchKeeps(k: Setup, s: System, op: Op, s': System)
    requires Inv(k, s) && Touches(s, op, s')
    ensures Inv(k, s')
  {
    hide Inv;
    InvIsSound(k, s);
    StepKeepsSound(s.db, op, s'.db);
    TouchShrinks(s.db, op, s'.db);
    hide Sound, Step, Shrinks;
    ShrinkKeeps(k, s, s');
  }

  lemma InvIsSound(k: Setup, s: System)
    requires Inv(k, s)
    ensures Sound(s.db)
  {
  }

  lemma TouchShrinks(db: Tables, op: Op, db': Tables)
    requires (op.Mark? || op.Clear? || op.Retime?) && Step(db, op, db')
    ensures Shrinks(db, db') && db'.versions.Keys == db.versions.Keys
  {
  }

  // ---------- The transaction and the crash ----------

  /** The rows after a commit: the new one, and old ones other than the evicted. */
  ghost predicate RowsAfter(db: Tables, u: Upload, evicted: Option<nat>, db': Tables) {
    && (forall v | v in db'.versions ::
          if v == db.nextVersion then db'.versions[v].blob == u.blob && db'.versions[v].blobHash == u.blobHash
          else v in db.versions && db'.versions[v] == db.versions[v] && evicted != Some(v))
    && (forall v | v in db.versions && evicted != Some(v) :: v in db'.versions && db'.versions[v] == db.versions[v])
    && db.nextVersion in db'.versions && db'.versions[db.nextVersion].blob == u.blob
  }

  lemma CommitRows(db: Tables, u: Upload, evicted: Option<nat>, db': Tables)
    requires VersionsHaveFiles(db) && Upserted(db, u, evicted, db')
    ensures RowsAfter(db, u, evicted, db')
  {
  }

  lemma CommitGood(k: Setup, s: System, w: nat, evicted: Option<nat>, s': System)
    requires RowsApart(s) && RowsGood(k, s) && UploadsTracked(k, s) && WorkersApart(s) && AllDrawn(s)
    requires Commits(s, w, evicted, s') && RowsAfter(s.db, s.workers[w].u, evicted, s'.db)
    ensures RowsApart(s') && RowsGood(k, s')
  {
    hide Good, Upserted;
    assert Held(s.workers[w]) == s.workers[w].u.blob;
    OwnBlob(s, w);
    hide WorkersApart, AllDrawn;
  }

  lemma CommitApart(s: System, w: nat, evicted: Option<nat>, s': System)
    requires RowsApart(s) && WorkersApart(s) && AllDrawn(s)
    requires Commits(s, w, evicted, s') && RowsAfter(s.db, s.workers[w].u, evicted, s'.db)
    ensures WorkersApart(s')
  {
    CommitHands(s, w, evicted, s');
    OwnBlob(s, w);
    hide Commits, AllDrawn, Upserted;
  }

  /** Whose hands the blobs are in after a commit: the worker now holds the evicted one, if any. */
  lemma CommitHands(s: System, w: nat, evicted: Option<nat>, s': System)
    requires Commits(s, w, evicted, s')
    ensures s'.condemned == s.condemned && s'.used == s.used && s'.leaked == s.leaked
    ensures w in s.workers && Held(s.workers[w]) == s.workers[w].u.blob && !s.workers[w].Evicting?
    ensures forall i | i in s'.workers && i != w :: i in s.workers && s'.workers[i] == s.workers[i]
    ensures w in s'.workers ==>
      && s'.workers[w].Evicting? && evicted.Some? && evicted.value in s.db.versions
      && Held(s'.workers[w]) == s.db.versions[evicted.value].blob
  {
  }

  lemma CommitDrawn(s: System, w: nat, evicted: Option<nat>, s': System)
    requires AllDrawn(s)
    requires Commits(s, w, evicted, s') && RowsAfter(s.db, s.workers[w].u, evicted, s'.db)
    ensures AllDrawn(s')
  {
    CommitHands(s, w, evicted, s');
    hide Commits, Upserted;
  }

  lemma CommitTracked(k: Setup, s: System, w: nat, evicted: Option<nat>, s': System)
    requires Inv(k, s) && Commits(s, w, evicted, s')
    ensures UploadsTracked(k, s') && PurgesListed(s')
  {
    hide Good, Sound, Upserted, Accounted, AllDrawn, RowsGood, WorkersApart;
  }

  lemma CommitAccounted(k: Setup, s: System, w: nat, evicted: Option<nat>, s': System)
    requires Inv(k, s) && Commits(s, w, evicted, s') && RowsAfter(s.db, s.workers[w].u, evicted, s'.db)
    ensures Accounted(s')
  {
    hide Good, Sound, Upserted, AllDrawn, RowsGood, WorkersApart, Referenced, InFlight;
    forall blob | blob in s'.remote
      ensures blob in Referenced(s'.db) || blob in InFlight(s') || blob in s'.leaked
    {
      InFlightIs(s, blob);
      InFlightIs(s', blob);
      ReferencedIs(s.db, blob);
      ReferencedIs(s'.db, blob);
      if blob in Referenced(s.db) {
        var v :| v in s.db.versions && s.db.versions[v].blob == blob;
        if evicted == Some(v) {
          assert Held(s'.workers[w]) == blob;
        }
      } else if blob in InFlight(s) {
        var i :| i in s.workers && Held(s.workers[i]) == blob;
        if i != w {
          assert i in s'.workers && s'.workers[i] == s.workers[i];
        }
      }
    }
  }

  lemma CommitKeeps(k: Setup, s: System, w: nat, evicted: Option<nat>, s': System)
    requires Inv(k, s) && Commits(s, w, evicted, s')
    ensures Inv(k, s')
  {
    var u := s.workers[w].u;
    UpsertKeepsSound(s.db, u, evicted, s'.db);
    CommitRows(s.db, u, evicted, s'.db);
    CommitGood(k, s, w, evicted, s');
    CommitApart(s, w, evicted, s');
    CommitDrawn(s, w, evicted, s');
    CommitTracked(k, s, w, evicted, s');
    CommitAccounted(k, s, w, evicted, s');
  }

  lemma CrashKeeps(k: Setup, s: System, s': System)
    requires Inv(k, s) && Crashes(s, s')
    ensures Inv(k, s')
  {
    hide Good, Sound, Referenced;
  }

  lemma NextKeepsInv(k: Setup, s: System, act: Action, s': System)
    requires Inv(k, s) && Next(k, s, act, s')
    ensures Inv(k, s')
  {
    hide Inv;
    hide Begins, Sends, Finishes, GivesUp, Commits, DeletesEvicted;
    hide StartsPurge, PurgesBlob, PurgesRows, StopsPurge, Touches, Crashes;
    match act {
      case Begin(w, blob) => BeginKeeps(k, s, w, blob, s');
      case Send(w, data) => SendKeeps(k, s, w, data, s');
      case FinishUpload(w, u, plain) => FinishKeeps(k, s, w, u, plain, s');
      case AbortUpload(w) => GiveUpKeeps(k, s, w, s');
      case Commit(w, evicted) => CommitKeeps(k, s, w, evicted, s');
      case CommitFails(w) => GiveUpKeeps(k, s, w, s');
      case DeleteEvicted(w, ok) =>
        if ok {
          DeleteEvictedKeeps(k, s, w, s');
        } else {
          GiveUpKeeps(k, s, w, s');
        }
      case StartPurge(p, target) => StartPurgeKeeps(k, s, p, target, s');
      case PurgeBlob(p, blob, ok) => PurgeBlobKeeps(k, s, p, blob, ok, s');
      case PurgeRows(p) => PurgeRowsKeeps(k, s, p, s');
      case StopPurge(p) => StopPurgeKeeps(k, s, p, s');
      case Touch(op) => TouchKeeps(k, s, op, s');
      case Crash => CrashKeeps(k, s, s');
    }
  }
}
