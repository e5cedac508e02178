/**
  Deleted-source retention: a file missing from the source is marked, kept for the retention
  time, and then purged; a file that reappears is unmarked.
 */
module Retention {
  import opened Basics
  import opened Database
  import opened Protocol
  import opened Backup
  import Purge

  /** Times are nanoseconds; a stored mark is a whole number of seconds (RFC 3339, no fraction). */
  const SECOND: int := 1_000_000_000

  function StoredSecond(now: int): int {
    now / SECOND
  }

  /** One retention pass: its clock, the job's settings, the paths its walk met, and which updates fail. */
  datatype Pass = Pass(now: int, retention: int, covers: string -> bool, seen: set<string>,
                       clearFails: set<string>, markFails: set<string>)

  /** What the pass makes of one row's mark. */
  function NewMark(row: FileRow, p: Pass): Option<int> {
    if !p.covers(row.source) then row.deletedAt
    else if row.source in p.seen then
      if row.deletedAt.Some? && row.source !in p.clearFails then None else row.deletedAt
    else if row.deletedAt.None? && row.source !in p.markFails then Some(StoredSecond(p.now))
    else row.deletedAt
  }

  /** The tables once the pass has marked and unmarked the files of these ids. */
  function MarksSet(t: Tables, p: Pass, ids: set<nat>): Tables {
    t.(files := map f | f in t.files ::
         if f in ids then t.files[f].(deletedAt := NewMark(t.files[f], p)) else t.files[f])
  }

  /** The mark the pass found, not one it set, is old enough. */
  predicate HasExpired(row: FileRow, p: Pass) {
    && p.covers(row.source) && row.source !in p.seen
    && row.deletedAt.Some? && row.deletedAt.value * SECOND <= p.now - p.retention
  }

  function Expired(t: Tables, p: Pass): set<nat> {
    set f | f in t.files && HasExpired(t.files[f], p)
  }

  function AfterPass(t: Tables, p: Pass, purged: bool): Tables {
    if p.retention <= 0 then t
    else
      var t' := MarksSet(t, p, t.files.Keys);
      if purged then FilesRemoved(t', Expired(t, p)) else t'
  }

  /** The files whose update was due and failed. */
  function FailedUpdates(t: Tables, p: Pass): set<nat> {
    set f | f in t.files && Fails(t.files[f], p)
  }

  predicate Fails(row: FileRow, p: Pass) {
    p.covers(row.source) &&
      if row.source in p.seen then row.deletedAt.Some? && row.source in p.clearFails
      else row.deletedAt.None? && row.source in p.markFails
  }

  /** One mark or unmark, by source path, reaches the row of this id alone. */
  lemma OneMark(t: Tables, p: Pass, done: set<nat>, f: nat)
    requires Sound(t) && f in t.files && f !in done
    ensures MarksSet(t, p, done + {f}) == Update(MarksSet(t, p, done), p, t.files[f])
  {
    var t1, t2, row := MarksSet(t, p, done), MarksSet(t, p, done + {f}), t.files[f];
    var t3 := Update(t1, p, row);
    forall g | g in t.files && g != f
      ensures t.files[g].source != row.source
    {
      assert PathsUnique(t);
    }
    hide Sound, NewMark;
    OnlyMarks(t1, p, row);
    forall g | g in t.files
      ensures t3.files[g] == t2.files[g]
    {
      if g != f {
        OtherMark(t1, p, row, g);
      } else {
        OwnMark(t1, p, f);
      }
    }
    hide Update;
    assert t3.files == t2.files;
  }

  lemma OnlyMarks(t: Tables, p: Pass, e: FileRow)
    ensures Update(t, p, e).files.Keys == t.files.Keys
    ensures Update(t, p, e) == t.(files := Update(t, p, e).files)
  {
  }

  lemma OtherMark(t: Tables, p: Pass, e: FileRow, g: nat)
    requires g in t.files && t.files[g].source != e.source
    ensures g in Update(t, p, e).files && Update(t, p, e).files[g] == t.files[g]
  {
  }

  lemma OwnMark(t: Tables, p: Pass, f: nat)
    requires f in t.files
    ensures f in Update(t, p, t.files[f]).files
    ensures Update(t, p, t.files[f]).files[f] == t.files[f].(deletedAt := NewMark(t.files[f], p))
  {
  }

  /** The update one entry calls for, if any, and whether it went through. */
  function Update(t: Tables, p: Pass, e: FileRow): Tables {
    if !p.covers(e.source) then t
    else if e.source in p.seen then
      if e.deletedAt.Some? && e.source !in p.clearFails then Cleared(t, e.source) else t
    else if e.deletedAt.None? && e.source !in p.markFails then Marked(t, e.source, StoredSecond(p.now))
    else t
  }

  method UpdateMark(db: Database, p: Pass, e: FileRow) returns (ok: bool)
    requires Sound(db.State())
    modifies db
    ensures Sound(db.State())
    ensures db.State() == Update(old(db.State()), p, e)
    ensures ok <==> !Fails(e, p)
  {
    ok := true;
    if !p.covers(e.source) {
      return;
    }
    if e.source in p.seen {
      if e.deletedAt.Some? {
        ok := e.source !in p.clearFails;
        db.ClearFileDeleted(e.source, ok);
      }
    } else if e.deletedAt.None? {
      ok := e.source !in p.markFails;
      db.MarkFileDeletedIfUnset(e.source, StoredSecond(p.now), ok);
    }
  }

  lemma NoMarksSet(t: Tables, p: Pass)
    ensures MarksSet(t, p, {}) == t
  {
  }

  /** The expired among these files, and those whose update failed. */
  function ExpiredAmong(t: Tables, p: Pass, ids: set<nat>): set<nat> {
    set f | f in ids && f in t.files && HasExpired(t.files[f], p)
  }

  function FailedAmong(t: Tables, p: Pass, ids: set<nat>): set<nat> {
    set f | f in ids && f in t.files && Fails(t.files[f], p)
  }

  lemma NoneAmong(t: Tables, p: Pass)
    ensures ExpiredAmong(t, p, {}) == {} && FailedAmong(t, p, {}) == {}
    ensures ExpiredAmong(t, p, t.files.Keys) == Expired(t, p) && FailedAmong(t, p, t.files.Keys) == FailedUpdates(t, p)
  {
  }

  lemma OneMoreAmong(t: Tables, p: Pass, ids: set<nat>, f: nat)
    requires f in t.files && f !in ids
    ensures ExpiredAmong(t, p, ids + {f}) == ExpiredAmong(t, p, ids) + if HasExpired(t.files[f], p) then {f} else {}
    ensures |FailedAmong(t, p, ids + {f})| == |FailedAmong(t, p, ids)| + if Fails(t.files[f], p) then 1 else 0
  {
    assert FailedAmong(t, p, ids + {f}) == FailedAmong(t, p, ids) + if Fails(t.files[f], p) then {f} else {};
    assert f !in FailedAmong(t, p, ids);
  }

  /** The loop over the tracked files, as they were when it began. */
  method SetMarks(db: Database, p: Pass) returns (errs: nat, expired: set<nat>)
    requires Sound(db.State())
    modifies db
    ensures Sound(db.State())
    ensures db.State() == MarksSet(old(db.State()), p, old(db.files.Keys))
    ensures expired == Expired(old(db.State()), p)
    ensures errs == |FailedUpdates(old(db.State()), p)|
  {
    hide Sound, HasExpired, Fails, NewMark, Update, MarksSet, ExpiredAmong, FailedAmong, Expired, FailedUpdates;
    ghost var t := db.State();
    var entries := db.files;
    var left := entries.Keys;
    errs, expired := 0, {};
    NoMarksSet(t, p);
    NoneAmong(t, p);
    ghost var done: set<nat> := {};
    while left != {}
      invariant left <= entries.Keys && done == entries.Keys - left && Sound(db.State())
      invariant db.State() == MarksSet(t, p, done)
      invariant expired == ExpiredAmong(t, p, done) && errs == |FailedAmong(t, p, done)|
      decreases left
    {
      var f :| f in left;
      var e := entries[f];
      OneMark(t, p, done, f);
      OneMoreAmong(t, p, done, f);
      var ok := UpdateMark(db, p, e);
      if !ok {
        errs := errs + 1;
      }
      if HasExpired(e, p) {
        expired := expired + {f};
      }
      left, done := left - {f}, done + {f};
    }
    assert done == entries.Keys;
  }

  /** The remote deletions of a pass; a broken one is counted and does not stop the others. */
  method DeleteExpired(db: Database, remote: RemoteStore, ids: set<nat>, cancelled: nat -> bool, broken: nat -> bool)
    returns (errs: nat, through: bool, ghost blobs: seq<BlobId>, ghost reached: nat)
    modifies remote
    ensures Purge.ListsBlobs(db.State(), Files(ids), blobs) && reached <= |blobs|
    ensures remote.objects == old(remote.objects) - Purge.DeletedBy(blobs, broken, reached)
    ensures errs == Purge.Breaks(broken, reached)
    ensures through <==> reached == |blobs|
    ensures !through ==> cancelled(reached + 1)
    ensures forall j | 1 <= j <= reached :: !cancelled(j)
  {
    hide Purge.DeletedBy, Purge.Breaks, Purge.ListsBlobs, BlobsOf, RowsOfFiles;
    errs, through := 0, false;
    var blobIDs := db.ListBlobIDsByFileIDs(ids);
    blobs := blobIDs;
    Purge.BlobsListed(db.State(), Files(ids), blobs);
    ghost var objects := remote.objects;
    Purge.NoneGone(objects, blobs, broken);
    var i := 0;
    while i < |blobIDs|
      invariant i <= |blobIDs|
      invariant remote.objects == objects - Purge.DeletedBy(blobs, broken, i)
      invariant errs == Purge.Breaks(broken, i)
      invariant forall j | 1 <= j <= i :: !cancelled(j)
    {
      if cancelled(i + 1) {
        reached := i;
        return;
      }
      Purge.OneMore(objects, blobs, broken, i);
      if broken(i) {
        errs := errs + 1;
      } else {
        remote.objects := remote.objects - {blobIDs[i]};
      }
      i := i + 1;
    }
    through, reached := true, i;
  }

  lemma SameBlobsAfterMarks(t: Tables, p: Pass, ids: set<nat>, blobs: seq<BlobId>)
    ensures Purge.ListsBlobs(MarksSet(t, p, t.files.Keys), Files(ids), blobs)
      <==> Purge.ListsBlobs(t, Files(ids), blobs)
  {
  }

  /** There is something to purge, and the pass gets as far as its remote deletions. */
  ghost predicate Purges(t: Tables, p: Pass, cancelled: nat -> bool, connects: bool) {
    p.retention > 0 && Expired(t, p) != {} && !cancelled(0) && connects
  }

  /** What the purging part of a pass does to the remote store, and when it removes the rows. */
  ghost predicate PurgesExactly(t: Tables, p: Pass, cancelled: nat -> bool, broken: nat -> bool, commits: bool,
                                objects: map<BlobId, Bytes>, objects': map<BlobId, Bytes>, blobs: seq<BlobId>,
                                reached: nat, purged: bool) {
    && Purge.ListsBlobs(t, Files(Expired(t, p)), blobs) && reached <= |blobs|
    && objects' == objects - Purge.DeletedBy(blobs, broken, reached)
    && (forall j | 1 <= j <= reached :: !cancelled(j))
    && (reached < |blobs| ==> cancelled(reached + 1))
    && (purged <==> reached == |blobs| && commits)
  }

  /** The errors a pass counts after its marks. */
  ghost function PurgeErrors(broken: nat -> bool, commits: bool, blobs: seq<BlobId>, reached: nat): nat {
    Purge.Breaks(broken, reached) + if reached == |blobs| && !commits then 1 else 0
  }

  /** The pass, or, when the query for the tracked files fails, one that does nothing. */
  function Started(p: Pass, tracked: bool): Pass {
    if tracked then p else p.(retention := 0)
  }

  /**
    applyDeletedSourceRetention. Whatever fails after the tracked files are read, the marks end as
    NewMark says; then the expired files' blobs are deleted one by one, and their rows go exactly when
    that loop gets to its end and the transaction commits. The query for the blobs and the connection
    can fail too.
   */
  method ApplyDeletedSourceRetention(db: Database, remote: RemoteStore, p: Pass, tracked: bool, cancelled: nat -> bool,
                                     listed: bool, connects: bool, broken: nat -> bool, commits: bool)
    returns (removed: nat, errs: nat, ghost purged: bool, ghost blobs: seq<BlobId>, ghost reached: nat)
    requires Sound(db.State())
    modifies db, remote
    ensures Sound(db.State())
    ensures db.State() == AfterPass(old(db.State()), Started(p, tracked), purged)
    ensures removed == if purged then |Expired(old(db.State()), p)| else 0
    ensures Purges(old(db.State()), Started(p, tracked), cancelled, listed && connects) ==>
      && PurgesExactly(old(db.State()), p, cancelled, broken, commits,
                       old(remote.objects), remote.objects, blobs, reached, purged)
      && errs == |FailedUpdates(old(db.State()), p)| + PurgeErrors(broken, commits, blobs, reached)
    ensures !Purges(old(db.State()), Started(p, tracked), cancelled, listed && connects) ==>
      && !purged && remote.objects == old(remote.objects)
      && errs == if p.retention <= 0 then 0
                 else if !tracked then 1
                 else |FailedUpdates(old(db.State()), p)|
                      + if Expired(old(db.State()), p) != {} && !cancelled(0) then 1 else 0
  {
    hide Sound, Expired, FailedUpdates, MarksSet, Purge.DeletedBy, Purge.ListsBlobs;
    removed, errs, purged, blobs, reached := 0, 0, false, [], 0;
    if p.retention <= 0 {
      return;
    }
    if !tracked {
      errs := 1;
      return;
    }
    ghost var t := db.State();
    var expiredIDs;
    errs, expiredIDs := SetMarks(db, p);
    if expiredIDs == {} || cancelled(0) {
      return;
    }
    if !listed || !connects {
      errs := errs + 1;
      return;
    }
    var broke, through;
    broke, through, blobs, reached := DeleteExpired(db, remote, expiredIDs, cancelled, broken);
    SameBlobsAfterMarks(t, p, expiredIDs, blobs);
    errs := errs + broke;
    if !through {
      return;
    }
    var ok := db.DeleteFilesByIDs(expiredIDs, commits);
    if !ok {
      errs := errs + 1;
      return;
    }
    removed, purged := |expiredIDs|, true;
  }
}
