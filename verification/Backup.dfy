/**
  One file of a backup, from the stat to the deletion of the evicted blob, and what a second
  backup of an unchanged source does.
 */
module Backup {
  import opened Basics
  import opened Streams
  import opened Container
  import opened Database
  import opened Protocol

  /** A file as the walk and os.Stat see it, and its content. */
  datatype SourceFile = SourceFile(path: string, display: string, size: int, mtime: int, content: Bytes)

  /**
    Everything processFile does not control: which calls fail, how the file's reads go once it is
    opened (it may have changed since it was hashed), whether the upload gets as far as a remote
    object, how many bytes the link then takes before it breaks, whether the remote side accepts
    them in the end, the blob id and nonces drawn, and the clock.
   */
  datatype Weather = Weather(cancelled: bool, statOk: bool, infoOk: bool, hashOk: bool, openOk: bool,
                             read: seq<Event>, starts: bool, room: nat, accepted: bool, commitOk: bool, deleteOk: bool,
                             blob: BlobId, nonces: nat -> Nonce, compress: bool, job: int, now: int)

  class RemoteStore {
    var objects: map<BlobId, Bytes>

    constructor ()
      ensures objects == map[]
    {
      objects := map[];
    }
  }

  ghost predicate Working(k: Setup, gzip: Gzip) {
    && Lawful(k.aead)
    && (forall d :: k.gunzip(gzip.whole(d)) == Gunzipped(d, true))
    && (forall d :: k.sha(d) != "")
  }

  /** The stat-based check: the latest version has this size and modification time. */
  predicate SameStat(row: VersionRow, file: SourceFile) {
    row.hash != "" && row.size == file.size && row.mtime == file.mtime
  }

  function UploadOf(k: Setup, file: SourceFile, w: Weather, stored: Bytes): Upload {
    Upload(file.path, file.display, w.blob, file.size, k.sha(file.content), k.sha(stored), file.mtime, w.job, w.now)
  }

  /** What there is to upload: the encryption of what the opened file's reads deliver. */
  ghost function BlobFor(k: Setup, gzip: Gzip, w: Weather): Bytes {
    if w.compress then Blob(GZIP_MAGIC, k.aead, w.nonces, Packed(gzip, DataOf(w.read), EndOf(w.read)))
    else Blob(PLAIN_MAGIC, k.aead, w.nonces, DataOf(w.read))
  }

  /** How many bytes the upload reads before it gives up. */
  function LinkRoom(w: Weather): nat {
    if w.starts then w.room else 0
  }

  /** The reads of the opened file end properly, the link takes the whole blob, and the remote side accepts it. */
  ghost predicate TransferOk(k: Setup, gzip: Gzip, w: Weather) {
    EndOf(w.read) == Eof && |BlobFor(k, gzip, w)| <= LinkRoom(w) && w.starts && w.accepted
  }

  /** The link gives out before the last frame of a compressed blob: the encrypting call never returns. */
  ghost predicate CallStalls(k: Setup, gzip: Gzip, w: Weather) {
    w.compress && Stalls(k.aead, w.nonces, Packed(gzip, DataOf(w.read), EndOf(w.read)), LinkRoom(w))
  }

  /**
    In bytes: only a compressed upload, and one that does not start exactly when there is anything to
    send, and one that does exactly when its link gives out before the last frame.
   */
  lemma CallStallsIff(k: Setup, gzip: Gzip, w: Weather)
    requires Lawful(k.aead)
    ensures var packed := Packed(gzip, DataOf(w.read), EndOf(w.read));
      CallStalls(k, gzip, w) <==>
        w.compress && packed != [] && (!w.starts || w.room < 8 + FramesSize(LastChunk(|packed|)))
  {
    StallsIff(k.aead, w.nonces, Packed(gzip, DataOf(w.read), EndOf(w.read)), LinkRoom(w));
    hide Lawful, Stalls, Packed, DataOf, EndOf, LastChunk;
  }

  /**
    The tables have one row more than what is left of the old ones: it says of this file what the
    backup found and stored, and its file is unmarked and shown under its display path.
   */
  ghost predicate Records(t: Tables, t': Tables, k: Setup, file: SourceFile, w: Weather, stored: Bytes) {
    exists v ::
      && v in t'.versions && v !in t.versions
      && (forall x | x in t'.versions && x != v :: x in t.versions && t'.versions[x] == t.versions[x])
      && var row := t'.versions[v];
      && row.size == file.size && row.mtime == file.mtime && row.hash == k.sha(file.content)
      && row.blob == w.blob && row.blobHash == k.sha(stored) && row.job == w.job && row.encryptedAt == w.now
      && IsNextNumber(t, row.file, row.number)
      && row.file in t'.files && t'.files[row.file].source == file.path
      && t'.files[row.file].display == file.display && t'.files[row.file].deletedAt.None?
      && (forall f | f in t'.files && f != row.file :: f in t.files && t'.files[f] == t.files[f])
  }

  /** One more than the greatest number among the file's rows, or 1. */
  ghost predicate IsNextNumber(t: Tables, f: nat, number: int) {
    && (forall x | x in t.versions && t.versions[x].file == f :: t.versions[x].number < number)
    && (number == 1 || exists x :: x in t.versions && t.versions[x].file == f && t.versions[x].number + 1 == number)
  }

  lemma UploadRecords(t: Tables, t': Tables, k: Setup, file: SourceFile, w: Weather, stored: Bytes,
                      evicted: Option<nat>)
    requires Sound(t) && Upserted(t, UploadOf(k, file, w, stored), evicted, t')
    ensures Records(t, t', k, file, w, stored)
  {
    var v, f := t.nextVersion, TargetFile(t, file.path);
    NextNumberIs(t, f);
    hide NextNumber, TargetFile, IsOldest, FilesHaveVersions, PathsUnique, NumbersUnique, IsNextNumber;
    assert v !in t.versions;
    assert t'.versions[v].file == f && t'.versions[v].number == NextNumber(t, f);
  }

  lemma NextNumberIs(t: Tables, f: nat)
    requires Sound(t)
    ensures IsNextNumber(t, f, NextNumber(t, f))
  {
    NextNumberIsLarger(t, f);
    hide Sound, NextNumber;
    forall x | x in t.versions && t.versions[x].file == f
      ensures t.versions[x].number < NextNumber(t, f)
    {
      assert x in VersionsOf(t, f);
    }
    if VersionsOf(t, f) != {} {
      var top :| top in VersionsOf(t, f) && NextNumber(t, f) == t.versions[top].number + 1;
      assert top in t.versions && t.versions[top].file == f;
    }
  }

  class Agent {
    const k: Setup
    const gzip: Gzip
    const db: Database
    const remote: RemoteStore

    constructor (k: Setup, gzip: Gzip, db: Database, remote: RemoteStore)
      ensures this.k == k && this.gzip == gzip && this.db == db && this.remote == remote
    {
      this.k, this.gzip, this.db, this.remote := k, gzip, db, remote;
    }

    /** The encrypting side of the pipe: what the opened file's reads turn into. */
    method Encrypt(w: Weather) returns (sent: Bytes, verdict: Container.Verdict)
      requires Working(k, gzip)
      ensures verdict == Container.Done <==> EndOf(w.read) == Eof && |BlobFor(k, gzip, w)| <= LinkRoom(w)
      ensures verdict == Container.NeverReturns <==> CallStalls(k, gzip, w)
      ensures sent == Clip(BlobFor(k, gzip, w), LinkRoom(w))
      ensures verdict == Container.Done ==> DecodeBlob(k.aead, k.gunzip, sent, Eof) == (DataOf(w.read), Container.Done)
    {
      hide DecodeBlob, Blob, Lawful, DataOf, EndOf, Stalls;
      var f := new Reader(w.read);
      DataIs(f);
      var room := LinkRoom(w);
      var pw := new Writer(room);
      ghost var data := f.Data();
      ghost var blob := BlobFor(k, gzip, w);
      if w.compress {
        StalledDoesNotFit(k.aead, w.nonces, Packed(gzip, data, f.Ending()), room);
        verdict := CompressAndEncryptFile(k.aead, w.nonces, gzip, f, pw);
        CompressedRoundTrip(k.aead, w.nonces, gzip, k.gunzip, data);
      } else {
        verdict := EncryptFile(k.aead, w.nonces, f, pw);
        BlobRoundTrip(k.aead, w.nonces, k.gunzip, data);
      }
      sent := pw.out;
      Fits(blob, room);
    }

    /**
      Encrypts the opened file straight into a new remote object, if the upload gets that far; a failure
      leaves a part of it. returned is false when the caller waits forever for the encryption.
     */
    method Transfer(w: Weather) returns (ok: bool, returned: bool)
      requires Working(k, gzip)
      modifies remote
      ensures w.starts ==>
        w.blob in remote.objects && remote.objects == old(remote.objects)[w.blob := remote.objects[w.blob]]
      ensures !w.starts ==> remote.objects == old(remote.objects)
      ensures returned <==> !CallStalls(k, gzip, w)
      ensures ok <==> TransferOk(k, gzip, w)
      ensures ok ==>
        && w.starts && returned && remote.objects[w.blob] == BlobFor(k, gzip, w)
        && DecodeBlob(k.aead, k.gunzip, remote.objects[w.blob], Eof) == (DataOf(w.read), Container.Done)
    {
      hide DecodeBlob, DataOf, EndOf, BlobFor, CallStalls, Working;
      var sent, verdict := Encrypt(w);
      if w.starts {
        remote.objects := remote.objects[w.blob := sent];
      }
      returned := verdict != Container.NeverReturns;
      ok := verdict == Container.Done && w.starts && w.accepted;
    }

    /**
      processFile. Answers 1 and the size for a file that was backed up, and whether an error kept
      it from being backed up; stuck says that it never answers. latest is the row its check looked
      at, evicted the row it displaced.
     */
    method ProcessFile(file: SourceFile, w: Weather)
      returns (n: nat, bytes: int, hadErr: bool, stuck: bool, ghost latest: Option<nat>, ghost evicted: Option<nat>)
      requires Working(k, gzip) && Sound(db.State())
      requires w.blob !in remote.objects && w.blob !in Referenced(db.State())
      modifies db, remote
      ensures Sound(db.State())
      ensures latest.None? ==> w.cancelled || !w.statOk || !w.infoOk || FilesAt(old(db.State()), file.path) == {}
      ensures latest.Some? ==> FilesAt(old(db.State()), file.path) != {}
      ensures latest.Some? ==> IsLatest(old(db.State()), TargetFile(old(db.State()), file.path), latest.value)
      // Which of the four outcomes it is.
      ensures w.cancelled ==> n == 0 && !hadErr && !stuck && latest.None?
      ensures !w.cancelled && (!w.statOk || !w.infoOk) ==> hadErr && remote.objects == old(remote.objects)
      ensures !w.cancelled && w.statOk && w.infoOk ==>
        var row := if latest.Some? then Some(old(db.versions)[latest.value]) else None;
        if row.Some? && row.value.hash != "" && row.value.size == file.size && row.value.mtime == file.mtime then
          n == 0 && !hadErr && !stuck
        else if !w.hashOk then hadErr && remote.objects == old(remote.objects)
        else if row.Some? && row.value.hash == k.sha(file.content) then n == 0 && !hadErr && !stuck
        else if !w.openOk then hadErr && remote.objects == old(remote.objects)
        else if CallStalls(k, gzip, w) then stuck
        else if !TransferOk(k, gzip, w) then hadErr
        else
          && w.blob in remote.objects && remote.objects[w.blob] == BlobFor(k, gzip, w)
          && if w.commitOk then n == 1 else hadErr
      // What each of them leaves behind.
      ensures n == 0 && !hadErr && !stuck ==>
        && remote.objects == old(remote.objects)
        && (if latest.Some? && w.commitOk
               && !(old(db.versions)[latest.value].hash != "" && old(db.versions)[latest.value].size == file.size
                    && old(db.versions)[latest.value].mtime == file.mtime)
            then Retimed(old(db.State()), file.path, file.mtime, db.State())
            else db.State() == old(db.State()))
      ensures stuck ==> !hadErr
      ensures hadErr || stuck ==>
        && n == 0 && db.State() == old(db.State())
        && remote.objects - {w.blob} == old(remote.objects)
      ensures n == 1 ==>
        && !hadErr && !stuck && bytes == file.size
        && w.blob in remote.objects
        && Upserted(old(db.State()), UploadOf(k, file, w, remote.objects[w.blob]), evicted, db.State())
        && Good(k, remote.objects[w.blob], DataOf(w.read), k.sha(remote.objects[w.blob]))
        && remote.objects == old(remote.objects)[w.blob := remote.objects[w.blob]]
             - (if evicted.Some? && w.deleteOk then {old(db.versions)[evicted.value].blob} else {})
      ensures n == 1 ==> Records(old(db.State()), db.State(), k, file, w, remote.objects[w.blob])
      ensures n <= 1 && (n == 0 ==> bytes == 0)
    {
      hide DecodeBlob, DataOf, EndOf, Sound, Upserted, Retimed;
      hide IsLatest, Working, Referenced, TargetFile, TransferOk, BlobFor, CallStalls, Records;
      n, bytes, hadErr, stuck, latest, evicted := 0, 0, false, false, None, None;
      ghost var t, objects := db.State(), remote.objects;
      if w.cancelled {
        return;
      }
      if !w.statOk || !w.infoOk {
        hadErr := true;
        NewKeyOnly(objects, w.blob);
        return;
      }
      var v := db.GetLatestVersionInfo(file.path);
      latest := v;
      LatestIsARow(t, file.path, v);
      if v.Some? && SameStat(db.versions[v.value], file) {
        return;
      }
      if !w.hashOk {
        hadErr := true;
        NewKeyOnly(objects, w.blob);
        return;
      }
      var hash := k.sha(file.content);
      if v.Some? && db.versions[v.value].hash == hash {
        db.UpdateLatestVersionMtime(file.path, file.mtime, w.commitOk);
        return;
      }
      if !w.openOk {
        hadErr := true;
        NewKeyOnly(objects, w.blob);
        return;
      }
      var ok, returned := Transfer(w);
      assert remote.objects - {w.blob} == objects;
      if !returned {
        stuck := true;
        return;
      }
      if !ok {
        hadErr := true;
        return;
      }
      var stored := remote.objects[w.blob];
      var u := UploadOf(k, file, w, stored);
      var r;
      r, evicted := db.UpsertFileVersion(u, w.commitOk);
      if r.Failure? {
        hadErr := true;
        return;
      }
      n, bytes := 1, file.size;
      UploadRecords(t, db.State(), k, file, w, stored, evicted);
      EvictedIsReferenced(t, u, evicted, db.State());
      if r.value.Some? && w.deleteOk {
        remote.objects := remote.objects - {r.value.value};
      }
    }
  }

  lemma Fits(blob: Bytes, room: nat)
    ensures [] + Clip(blob, room) == Clip(blob, room) && (|blob| <= room ==> Clip(blob, room) == blob)
  {
  }

  lemma StalledDoesNotFit(a: Aead, nonces: nat -> Nonce, packed: Bytes, room: nat)
    ensures Stalls(a, nonces, packed, room) ==> |Blob(GZIP_MAGIC, a, nonces, packed)| > room
  {
  }

  lemma NewKeyOnly(objects: map<BlobId, Bytes>, blob: BlobId)
    requires blob !in objects
    ensures objects - {blob} == objects
  {
  }

  lemma LatestIsARow(t: Tables, source: string, v: Option<nat>)
    requires v.Some? ==> IsLatest(t, TargetFile(t, source), v.value)
    ensures v.Some? ==> v.value in t.versions
  {
  }

  lemma EvictedIsReferenced(t: Tables, u: Upload, evicted: Option<nat>, t': Tables)
    requires Upserted(t, u, evicted, t')
    ensures evicted.Some? ==> evicted.value in t.versions && t.versions[evicted.value].blob in Referenced(t)
  {
  }
}
