/** Purging: remote blobs first, then the rows, with a report of what became of each blob. */
module Purge {
  import opened Basics
  import opened Database
  import opened Protocol
  import opened Backup

  datatype PurgeResult = PurgeResult(total: nat, deleted: nat, missing: nat, errors: nat, records: nat)

  /** Which remote deletions break, when the context is cancelled, and whether the transaction commits. */
  datatype PurgeWeather = PurgeWeather(broken: nat -> bool, cancelled: nat -> bool, commits: bool)

  datatype Ending = Complete | WithErrors | Cancelled | RowsFailed

  /** The ids among the first i of these that are gone once the loop has been through them. */
  function DeletedBy(blobs: seq<BlobId>, broken: nat -> bool, i: nat): set<BlobId>
    requires i <= |blobs|
  {
    set j | 0 <= j < i && !broken(j) :: blobs[j]
  }

  /** How many of the first i deletions break. */
  function Breaks(broken: nat -> bool, i: nat): nat {
    |set j | 0 <= j < i && broken(j)|
  }

  /** The blobs of the rows a purge is about, in the order they were listed. */
  ghost predicate ListsBlobs(t: Tables, target: Target, blobs: seq<BlobId>) {
    && (forall i | 0 <= i < |blobs| :: blobs[i] in Listed(t, target))
    && (forall blob | blob in Listed(t, target) :: blob in blobs)
    && |blobs| == |Rows(t, target)|
  }

  lemma BlobsListed(t: Tables, target: Target, blobs: seq<BlobId>)
    requires BlobsOf(t, Rows(t, target), blobs)
    ensures ListsBlobs(t, target, blobs)
  {
  }

  /**
    PurgeByPrefixWithReport. Every listed blob is deleted, found missing, or counted as an error;
    the deletions that did not break are done when the context is cancelled or the rows are removed.
   */
  method PurgeByPrefixWithReport(db: Database, remote: RemoteStore, prefix: string, w: PurgeWeather)
    returns (result: PurgeResult, ending: Ending, ghost blobs: seq<BlobId>, ghost reached: nat)
    requires Sound(db.State())
    modifies db, remote
    ensures Sound(db.State())
    ensures ListsBlobs(old(db.State()), Prefix(prefix), blobs)
    ensures result.total == result.records == |blobs| && reached <= |blobs|
    ensures result.deleted + result.missing + result.errors == reached
    ensures result.errors == Breaks(w.broken, reached)
    ensures remote.objects == old(remote.objects) - DeletedBy(blobs, w.broken, reached)
    ensures result.deleted == |old(remote.objects)| - |remote.objects|
    ensures ending == Cancelled <==> reached < |blobs|
    ensures ending == Cancelled ==> w.cancelled(reached) && db.State() == old(db.State())
    ensures forall j | 0 <= j < reached :: !w.cancelled(j)
    ensures ending == RowsFailed ==> db.State() == old(db.State()) && !w.commits
    ensures ending == Complete || ending == WithErrors ==>
      db.State() == FilesRemoved(old(db.State()), FilesUnder(old(db.State()), prefix))
    ensures ending == Complete ==> result.errors == 0
    ensures ending == WithErrors ==> result.errors > 0
  {
    hide Sound, FilesUnder, Listed, DeletedBy, BlobsOf, FilesRemoved, RowsOfFiles;
    ghost var t, objects := db.State(), remote.objects;
    var ids := db.ListBlobIDsByDisplayPrefix(prefix);
    blobs := ids;
    assert RowsOfFiles(t, FilesUnder(t, prefix)) == Rows(t, Prefix(prefix));
    BlobsListed(t, Prefix(prefix), blobs);
    hide ListsBlobs;
    var deleted, missing, errors, i := DeleteRemote(remote, ids, w);
    result, reached := PurgeResult(|ids|, deleted, missing, errors, |ids|), i;
    if i < |ids| {
      return result, Cancelled, blobs, reached;
    }
    var ok := db.DeleteFilesByDisplayPrefix(prefix, w.commits);
    ending := if !ok then RowsFailed else if result.errors > 0 then WithErrors else Complete;
  }

  /** The loop over the remote blobs; it stops early only when the context is cancelled. */
  method DeleteRemote(remote: RemoteStore, ids: seq<BlobId>, w: PurgeWeather)
    returns (deleted: nat, missing: nat, errors: nat, i: nat)
    modifies remote
    ensures i <= |ids| && deleted + missing + errors == i
    ensures errors == Breaks(w.broken, i)
    ensures remote.objects == old(remote.objects) - DeletedBy(ids, w.broken, i)
    ensures deleted == |old(remote.objects)| - |remote.objects|
    ensures i < |ids| ==> w.cancelled(i)
    ensures forall j | 0 <= j < i :: !w.cancelled(j)
  {
    hide DeletedBy, Breaks;
    ghost var objects := remote.objects;
    deleted, missing, errors, i := 0, 0, 0, 0;
    NoneGone(objects, ids, w.broken);
    while i < |ids|
      invariant i <= |ids| && deleted + missing + errors == i
      invariant errors == Breaks(w.broken, i)
      invariant remote.objects == objects - DeletedBy(ids, w.broken, i)
      invariant deleted == |objects| - |remote.objects|
      invariant forall j | 0 <= j < i :: !w.cancelled(j)
    {
      if w.cancelled(i) {
        return;
      }
      var blobID := ids[i];
      OneMore(objects, ids, w.broken, i);
      if w.broken(i) {
        errors := errors + 1;
      } else if blobID in remote.objects {
        DeletionCounts(remote.objects, blobID);
        remote.objects := remote.objects - {blobID};
        deleted := deleted + 1;
      } else {
        AbsentAlready(remote.objects, blobID);
        missing := missing + 1;
      }
      i := i + 1;
    }
  }

  lemma NoneGone(objects: map<BlobId, Bytes>, blobs: seq<BlobId>, broken: nat -> bool)
    ensures objects - DeletedBy(blobs, broken, 0) == objects && Breaks(broken, 0) == 0
  {
  }

  lemma OneMore(objects: map<BlobId, Bytes>, blobs: seq<BlobId>, broken: nat -> bool, i: nat)
    requires i < |blobs|
    ensures objects - DeletedBy(blobs, broken, i + 1)
         == if broken(i) then objects - DeletedBy(blobs, broken, i)
           else objects - DeletedBy(blobs, broken, i) - {blobs[i]}
    ensures Breaks(broken, i + 1) == Breaks(broken, i) + if broken(i) then 1 else 0
  {
    var before, after := set j | 0 <= j < i && broken(j), set j | 0 <= j < i + 1 && broken(j);
    if broken(i) {
      assert after == before + {i};
      assert DeletedBy(blobs, broken, i + 1) == DeletedBy(blobs, broken, i);
    } else {
      assert after == before;
      assert DeletedBy(blobs, broken, i + 1) == DeletedBy(blobs, broken, i) + {blobs[i]};
    }
  }

  lemma AbsentAlready(objects: map<BlobId, Bytes>, blob: BlobId)
    requires blob !in objects
    ensures objects - {blob} == objects
  {
  }

  lemma DeletionCounts(objects: map<BlobId, Bytes>, blob: BlobId)
    requires blob in objects
    ensures |objects - {blob}| == |objects| - 1
  {
  }

  ghost predicate NothingBreaks(w: PurgeWeather) {
    forall j | 0 <= j :: !w.broken(j)
  }

  ghost predicate Uninterrupted(w: PurgeWeather) {
    w.commits && forall j | 0 <= j :: !w.cancelled(j)
  }

  /**
    Any number of cancelled attempts and then one that completes: the database and the remote store
    end as one uninterrupted purge leaves them, provided no deletion breaks.
   */
  method PurgeWithRetries(db: Database, remote: RemoteStore, prefix: string, ws: seq<PurgeWeather>)
    returns (complete: bool)
    requires Sound(db.State())
    requires forall i | 0 <= i < |ws| :: NothingBreaks(ws[i])
    modifies db, remote
    ensures Sound(db.State())
    ensures complete ==> db.State() == FilesRemoved(old(db.State()), FilesUnder(old(db.State()), prefix))
    ensures complete ==> remote.objects == old(remote.objects) - Listed(old(db.State()), Prefix(prefix))
    ensures !complete ==>
      && db.State() == old(db.State())
      && forall blob | blob in old(remote.objects) && blob !in Listed(old(db.State()), Prefix(prefix)) ::
           blob in remote.objects && remote.objects[blob] == old(remote.objects)[blob]
    ensures (exists i :: 0 <= i < |ws| && Uninterrupted(ws[i])) ==> complete
  {
    hide Sound, FilesUnder, Rows, Listed, DeletedBy, Breaks, NothingBreaks, Uninterrupted, FilesRemoved, ListsBlobs;
    ghost var t, objects := db.State(), remote.objects;
    complete := false;
    var i := 0;
    while i < |ws| && !complete
      invariant i <= |ws| && Sound(db.State())
      invariant complete ==> db.State() == FilesRemoved(t, FilesUnder(t, prefix))
      invariant complete ==> remote.objects == objects - Listed(t, Prefix(prefix))
      invariant !complete ==> db.State() == t
      invariant remote.objects - Listed(t, Prefix(prefix)) == objects - Listed(t, Prefix(prefix))
      invariant !complete ==> forall l | 0 <= l < i :: !Uninterrupted(ws[l])
    {
      ghost var before := remote.objects;
      var result, ending;
      ghost var blobs, reached;
      result, ending, blobs, reached := PurgeByPrefixWithReport(db, remote, prefix, ws[i]);
      complete := ending == Complete;
      AttemptGone(t, prefix, blobs, ws[i], reached);
      WasInterrupted(ws[i], reached);
      LessIsLess(before, DeletedBy(blobs, ws[i].broken, reached), Listed(t, Prefix(prefix)));
      i := i + 1;
    }
    OthersStay(objects, remote.objects, Listed(t, Prefix(prefix)));
  }

  lemma WasInterrupted(w: PurgeWeather, j: nat)
    ensures w.cancelled(j) || !w.commits ==> !Uninterrupted(w)
  {
  }

  lemma OthersStay(before: map<BlobId, Bytes>, after: map<BlobId, Bytes>, listed: set<BlobId>)
    requires after - listed == before - listed
    ensures forall blob | blob in before && blob !in listed :: blob in after && after[blob] == before[blob]
  {
    forall blob | blob in before && blob !in listed
      ensures blob in after && after[blob] == before[blob]
    {
      assert blob in before - listed;
      assert blob in after - listed;
    }
  }

  lemma LessIsLess(objects: map<BlobId, Bytes>, gone: set<BlobId>, listed: set<BlobId>)
    requires gone <= listed
    ensures (objects - gone) - listed == objects - listed
  {
  }

  lemma AttemptGone(t: Tables, prefix: string, blobs: seq<BlobId>, w: PurgeWeather, reached: nat)
    requires ListsBlobs(t, Prefix(prefix), blobs) && reached <= |blobs| && NothingBreaks(w)
    ensures DeletedBy(blobs, w.broken, reached) <= Listed(t, Prefix(prefix))
    ensures reached == |blobs| ==> DeletedBy(blobs, w.broken, reached) == Listed(t, Prefix(prefix))
    ensures Breaks(w.broken, reached) == 0
  {
  }

  /**
    PurgeFileVersion. A deletion that breaks leaves everything as it was; otherwise the object is
    gone and, when the transaction commits, so is the row.
   */
  method PurgeFileVersion(db: Database, remote: RemoteStore, f: nat, number: int, broken: bool, commits: bool)
    returns (missing: bool, ok: bool)
    requires Sound(db.State())
    requires forall v | v in db.versions :: db.versions[v].blob != ""
    modifies db, remote
    ensures Sound(db.State())
    ensures ok <==> commits && !broken && exists v :: v in old(db.versions) && HasKey(old(db.versions)[v], f, number)
    ensures ok ==> db.State() == VersionDeleted(old(db.State()), f, number)
    ensures !ok ==> db.State() == old(db.State())
    ensures broken ==> remote.objects == old(remote.objects)
    ensures forall v | v in old(db.versions) && HasKey(old(db.versions)[v], f, number) && !broken ::
      && remote.objects == old(remote.objects) - {old(db.versions)[v].blob}
      && (missing <==> old(db.versions)[v].blob !in old(remote.objects))
    ensures (forall v | v in old(db.versions) :: !HasKey(old(db.versions)[v], f, number)) ==>
      remote.objects == old(remote.objects)
  {
    missing := false;
    var rows := db.GetFileVersions(f);
    var blobID := "";
    var i := 0;
    while i < |rows|
      invariant i <= |rows| && blobID == ""
      invariant forall j | 0 <= j < i :: db.versions[rows[j]].number != number
    {
      if db.versions[rows[i]].number == number {
        blobID := db.versions[rows[i]].blob;
        break;
      }
      i := i + 1;
    }
    ghost var t := db.State();
    if blobID == "" {
      forall v | v in db.versions
        ensures !HasKey(db.versions[v], f, number)
      {
        assert v in VersionsOf(t, f) ==> v in rows;
      }
      return false, false;
    }
    assert rows[i] in rows && rows[i] in VersionsOf(t, f);
    OnlyRow(t, rows[i]);
    if broken {
      return false, false;
    }
    missing := blobID !in remote.objects;
    remote.objects := remote.objects - {blobID};
    var r := db.DeleteFileVersion(f, number, commits);
    ok := r.Success?;
  }

  predicate HasKey(row: VersionRow, f: nat, number: int) {
    row.file == f && row.number == number
  }
}
