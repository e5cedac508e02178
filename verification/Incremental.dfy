/** Whole backups of a source that does not change: what one run settles the next leaves alone. */
module Incremental {
  import opened Basics
  import opened Streams
  import opened Container
  import opened Database
  import opened Protocol
  import opened Versions
  import opened Backup

  /** Both tables say the same about one source path. */
  ghost predicate SameRows(t: Tables, t': Tables, path: string) {
    && FilesAt(t', path) == FilesAt(t, path)
    && (FilesAt(t, path) != {} ==>
          var f := TargetFile(t, path);
          && TargetFile(t', path) == f
          && VersionsOf(t', f) == VersionsOf(t, f)
          && forall v | v in VersionsOf(t, f) :: t'.versions[v] == t.versions[v])
  }

  /** v is a latest version of the file at this path. */
  ghost predicate IsLatestOf(t: Tables, path: string, v: nat) {
    FilesAt(t, path) != {} && IsLatest(t, TargetFile(t, path), v)
  }

  /** The file's greatest encryption time belongs to one version only. */
  ghost predicate Untied(t: Tables, path: string) {
    forall v, w | IsLatestOf(t, path, v) && IsLatestOf(t, path, w) :: v == w
  }

  /** The clock is past all the file's encryption times. */
  ghost predicate Later(t: Tables, path: string, now: int) {
    FilesAt(t, path) != {} ==> forall v | v in VersionsOf(t, TargetFile(t, path)) :: t.versions[v].encryptedAt < now
  }

  /** Equal size and modification time mean equal content: the supposition behind the stat-based check. */
  ghost predicate Trusted(t: Tables, k: Setup, file: SourceFile) {
    forall v | IsLatestOf(t, file.path, v) && SameStat(t.versions[v], file) :: t.versions[v].hash == k.sha(file.content)
  }

  /** The latest version, and there is only one, has the hash of the file's content. */
  ghost predicate Settled(t: Tables, k: Setup, file: SourceFile) {
    && FilesAt(t, file.path) != {} && Untied(t, file.path)
    && forall v | IsLatestOf(t, file.path, v) :: t.versions[v].hash == k.sha(file.content)
  }

  /** The latest version bears another modification time than the file. */
  ghost predicate RetimeDue(t: Tables, file: SourceFile) {
    exists v :: IsLatestOf(t, file.path, v) && t.versions[v].mtime != file.mtime
  }

  /** The file's latest versions get its modification time. */
  ghost function RetimedTo(t: Tables, file: SourceFile): Tables {
    t.(versions := map v | v in t.versions ::
         if IsLatestOf(t, file.path, v) then t.versions[v].(mtime := file.mtime) else t.versions[v])
  }

  // ---------- One file does not disturb another ----------

  lemma OtherUploadSame(t: Tables, u: Upload, evicted: Option<nat>, t': Tables, path: string)
    requires Sound(t) && Upserted(t, u, evicted, t') && u.source != path
    ensures SameRows(t, t', path)
  {
    hide NextNumber, IsOldest;
    UpsertKeepsSound(t, u, evicted, t');
    TargetIsUnique(t, u.source);
    TargetIsUnique(t, path);
    TargetIsUnique(t', path);
    OthersKeepFile(t, Upsert(u), t', path);
    if FilesAt(t, path) != {} {
      var f := TargetFile(t, path);
      assert f in FilesAt(t, path) && f in FilesAt(t', path);
      OtherUploadKeepsRows(t, u, evicted, t', f);
    }
  }

  /** A new modification time changes nothing else, and nothing of any other file. */
  lemma RetimeRows(t: Tables, source: string, mtime: int, t': Tables, g: nat)
    requires Retimed(t, source, mtime, t')
    ensures t'.files == t.files && t'.versions.Keys == t.versions.Keys
    ensures VersionsOf(t', g) == VersionsOf(t, g)
    ensures forall v | v in VersionsOf(t, g) :: t'.versions[v] == t.versions[v].(mtime := t'.versions[v].mtime)
    ensures FilesAt(t, source) != {} && g != TargetFile(t, source) ==>
      forall v | v in VersionsOf(t, g) :: t'.versions[v] == t.versions[v]
    ensures FilesAt(t, source) == {} ==> t' == t
  {
  }

  lemma SameTarget(t: Tables, t': Tables, path: string)
    requires PathsUnique(t) && t'.files == t.files && FilesAt(t, path) != {}
    ensures FilesAt(t', path) == FilesAt(t, path) && TargetFile(t', path) == TargetFile(t, path)
    ensures TargetFile(t, path) in FilesAt(t, path)
  {
  }

  lemma OtherRetimeSame(t: Tables, source: string, mtime: int, t': Tables, path: string)
    requires Sound(t) && Retimed(t, source, mtime, t') && source != path
    ensures SameRows(t, t', path)
  {
    hide Retimed, VersionsOf, TargetFile, FilesHaveVersions, VersionsHaveFiles, NumbersUnique;
    var f := TargetFile(t, path);
    RetimeRows(t, source, mtime, t', f);
    assert FilesAt(t', path) == FilesAt(t, path);
    if FilesAt(t, path) != {} {
      SameTarget(t, t', path);
      if FilesAt(t, source) != {} {
        SameTarget(t, t', source);
      }
    }
  }

  lemma LatestIsSame(t: Tables, t': Tables, path: string, v: nat)
    requires SameRows(t, t', path)
    ensures IsLatestOf(t, path, v) <==> IsLatestOf(t', path, v)
    ensures IsLatestOf(t, path, v) ==> v in t.versions && v in t'.versions && t'.versions[v] == t.versions[v]
  {
  }

  lemma SameIsAsGood(t: Tables, t': Tables, k: Setup, file: SourceFile, now: int)
    requires SameRows(t, t', file.path)
    ensures Untied(t, file.path) <==> Untied(t', file.path)
    ensures Later(t, file.path, now) <==> Later(t', file.path, now)
    ensures Trusted(t, k, file) <==> Trusted(t', k, file)
    ensures Settled(t, k, file) <==> Settled(t', k, file)
    ensures RetimeDue(t, file) <==> RetimeDue(t', file)
  {
    forall v
      ensures IsLatestOf(t, file.path, v) <==> IsLatestOf(t', file.path, v)
      ensures IsLatestOf(t, file.path, v) ==> v in t.versions && v in t'.versions && t'.versions[v] == t.versions[v]
    {
      LatestIsSame(t, t', file.path, v);
    }
    assert Later(t, file.path, now) <==> Later(t', file.path, now);
    hide IsLatestOf, Later;
  }

  lemma SameRowsChain(t: Tables, t': Tables, t'': Tables, path: string)
    requires SameRows(t, t', path) && SameRows(t', t'', path)
    ensures SameRows(t, t'', path)
  {
  }

  // ---------- Modification times ----------

  /** Nothing but modification times differs. */
  ghost predicate TimesOnly(t: Tables, t': Tables) {
    && t' == t.(versions := t'.versions) && t'.versions.Keys == t.versions.Keys
    && forall v | v in t.versions :: t'.versions[v] == t.versions[v].(mtime := t'.versions[v].mtime)
  }

  lemma TimesKeepLatest(t: Tables, t': Tables, path: string, v: nat)
    requires PathsUnique(t) && TimesOnly(t, t')
    ensures FilesAt(t', path) == FilesAt(t, path)
    ensures IsLatestOf(t', path, v) <==> IsLatestOf(t, path, v)
    ensures IsLatestOf(t, path, v) ==> v in t.versions && t'.versions[v].hash == t.versions[v].hash
  {
    if FilesAt(t, path) != {} {
      SameTarget(t, t', path);
      assert VersionsOf(t', TargetFile(t, path)) == VersionsOf(t, TargetFile(t, path));
    }
  }

  lemma TimesKeepSettled(t: Tables, t': Tables, k: Setup, file: SourceFile)
    requires PathsUnique(t) && TimesOnly(t, t') && Settled(t, k, file)
    ensures Settled(t', k, file)
  {
    forall v
      ensures FilesAt(t', file.path) == FilesAt(t, file.path)
      ensures IsLatestOf(t', file.path, v) <==> IsLatestOf(t, file.path, v)
      ensures IsLatestOf(t, file.path, v) ==> v in t.versions && t'.versions[v].hash == t.versions[v].hash
    {
      TimesKeepLatest(t, t', file.path, v);
    }
    hide IsLatestOf, TimesOnly;
  }

  lemma RetimedToTimes(t: Tables, file: SourceFile)
    ensures TimesOnly(t, RetimedTo(t, file))
    ensures forall v | v in t.versions ::
      RetimedTo(t, file).versions[v].mtime == if IsLatestOf(t, file.path, v) then file.mtime else t.versions[v].mtime
  {
  }

  /** With one latest version, recording the time of some latest version is recording it of that one. */
  lemma RetimedIs(t: Tables, file: SourceFile, t': Tables)
    requires Retimed(t, file.path, file.mtime, t') && Untied(t, file.path)
    requires FilesAt(t, file.path) != {} ==> VersionsOf(t, TargetFile(t, file.path)) != {}
    ensures t' == RetimedTo(t, file)
  {
    if FilesAt(t, file.path) == {} {
      assert RetimedTo(t, file).versions == t.versions;
    } else {
      var f := TargetFile(t, file.path);
      var v :| IsLatest(t, f, v) && t' == t.(versions := t.versions[v := t.versions[v].(mtime := file.mtime)]);
      assert IsLatestOf(t, file.path, v);
      assert RetimedTo(t, file).versions == t'.versions;
    }
  }

  lemma NotDueIsSame(t: Tables, file: SourceFile)
    requires !RetimeDue(t, file)
    ensures RetimedTo(t, file) == t
  {
    forall v | v in t.versions && IsLatestOf(t, file.path, v)
      ensures t.versions[v].(mtime := file.mtime) == t.versions[v]
    {
    }
    assert RetimedTo(t, file).versions == t.versions;
  }

  lemma RetimedIsNotDue(t: Tables, file: SourceFile)
    requires PathsUnique(t)
    ensures !RetimeDue(RetimedTo(t, file), file)
  {
    var t' := RetimedTo(t, file);
    RetimedToTimes(t, file);
    forall v | IsLatestOf(t', file.path, v)
      ensures t'.versions[v].mtime == file.mtime
    {
      TimesKeepLatest(t, t', file.path, v);
    }
  }

  // ---------- One call of processFile ----------

  lemma UploadSettles(t: Tables, k: Setup, file: SourceFile, w: Weather, stored: Bytes, evicted: Option<nat>,
                      t': Tables)
    requires Sound(t) && Upserted(t, UploadOf(k, file, w, stored), evicted, t') && Later(t, file.path, w.now)
    ensures Settled(t', k, file) && !RetimeDue(t', file)
  {
    var u := UploadOf(k, file, w, stored);
    var f, added := TargetFile(t, file.path), t.nextVersion;
    UploadTarget(t, u, evicted, t');
    UpsertRows(t, u, evicted, t');
    UploadOrder(t, u, evicted, t', w.now);
    hide Sound, Upserted, Later, TargetFile, FilesAt;
    assert IsLatestOf(t', file.path, added);
    forall v | IsLatestOf(t', file.path, v)
      ensures v == added
    {
    }
  }

  /** The new row, and that it is later than all the others of its file. */
  lemma UploadOrder(t: Tables, u: Upload, evicted: Option<nat>, t': Tables, now: int)
    requires Sound(t) && Upserted(t, u, evicted, t') && Later(t, u.source, now)
    ensures var f := TargetFile(t, u.source);
      && t.nextVersion in VersionsOf(t', f)
      && t'.versions[t.nextVersion].encryptedAt == u.at && t'.versions[t.nextVersion].hash == u.hash
      && t'.versions[t.nextVersion].size == u.size && t'.versions[t.nextVersion].mtime == u.mtime
      && (forall v | v in VersionsOf(t', f) && v != t.nextVersion :: t'.versions[v].encryptedAt < now)
  {
    hide NextNumber, IsOldest;
    var f := TargetFile(t, u.source);
    UpsertRows(t, u, evicted, t');
    TargetIsUnique(t, u.source);
    forall v | v in VersionsOf(t', f) && v != t.nextVersion
      ensures t'.versions[v].encryptedAt < now
    {
      assert v in VersionsOf(t, f) && t'.versions[v] == t.versions[v];
      assert f in t.files;
    }
  }

  /** A call that ends without an error, for a job that is not cancelled. */
  predicate EndsWell(w: Weather, errored: bool, stuck: bool) {
    !w.cancelled && !errored && !stuck
  }

  /** What one call of processFile does to the rows. */
  ghost predicate FileStep(k: Setup, file: SourceFile, w: Weather, t: Tables, t': Tables, errored: bool, stuck: bool) {
    && (forall path | path != file.path :: SameRows(t, t', path))
    && (!EndsWell(w, errored, stuck) ==> t' == t)
    && (EndsWell(w, errored, stuck) && Untied(t, file.path) && Later(t, file.path, w.now) && Trusted(t, k, file) ==>
          Settled(t', k, file) && (w.commitOk ==> !RetimeDue(t', file)))
    && (EndsWell(w, errored, stuck) && Settled(t, k, file) ==> t' == if w.commitOk then RetimedTo(t, file) else t)
  }

  /** Nothing fails. */
  ghost predicate Fair(k: Setup, gzip: Gzip, w: Weather) {
    w.statOk && w.infoOk && w.hashOk && w.openOk && TransferOk(k, gzip, w) && w.commitOk
  }

  /** The checks of a file can be made. */
  predicate CanBeRead(w: Weather) {
    !w.cancelled && w.statOk && w.infoOk && w.hashOk
  }

  /** processFile, with the part of its contract that whole runs build on. */
  method ProcessOne(agent: Agent, file: SourceFile, w: Weather) returns (n: nat, hadErr: bool, stuck: bool)
    requires Working(agent.k, agent.gzip) && Sound(agent.db.State())
    requires w.blob !in agent.remote.objects && w.blob !in Referenced(agent.db.State())
    modifies agent.db, agent.remote
    ensures Sound(agent.db.State())
    ensures FileStep(agent.k, file, w, old(agent.db.State()), agent.db.State(), hadErr, stuck)
    ensures Referenced(agent.db.State()) <= Referenced(old(agent.db.State())) + {w.blob}
    ensures agent.remote.objects.Keys <= old(agent.remote.objects.Keys) + {w.blob}
    ensures Settled(old(agent.db.State()), agent.k, file) && CanBeRead(w)
        ==> n == 0 && !hadErr && !stuck && agent.remote.objects == old(agent.remote.objects)
    ensures Fair(agent.k, agent.gzip, w) ==> !hadErr && !stuck
    ensures FilesAt(old(agent.db.State()), file.path) == {} && !w.cancelled && !hadErr && !stuck
        ==> Fair(agent.k, agent.gzip, w)
  {
    hide TransferOk, CallStalls;
    hide Upserted, Retimed, Sound, Settled, Untied, Later;
    hide Trusted, IsLatest, IsLatestOf, FilesAt, VersionsOf, TargetFile, SameRows;
    hide Referenced, FileStep, RetimedTo, RetimeDue;
    ghost var t := agent.db.State();
    var bytes;
    ghost var latest, evicted;
    n, bytes, hadErr, stuck, latest, evicted := agent.ProcessFile(file, w);
    ghost var t' := agent.db.State();
    FitsNoStall(agent.k, agent.gzip, w);
    QuietRow(t, agent.k, file, latest);
    if n == 1 {
      ghost var stored := agent.remote.objects[w.blob];
      NewRowIsReferenced(t, UploadOf(agent.k, file, w, stored), evicted, t');
      UploadStep(t, agent.k, file, w, stored, evicted, t');
    } else if w.cancelled || hadErr || stuck {
      NoStep(t, agent.k, file, w, hadErr, stuck);
    } else if SameStat(t.versions[latest.value], file) {
      SkipStep(t, agent.k, file, w, latest.value);
    } else {
      if w.commitOk {
        SameBlobs(t, file.path, file.mtime, t');
      }
      RetimeStep(t, agent.k, file, w, latest.value, t');
    }
  }

  lemma FitsNoStall(k: Setup, gzip: Gzip, w: Weather)
    ensures TransferOk(k, gzip, w) ==> !CallStalls(k, gzip, w)
  {
    hide Blob;
    StalledDoesNotFit(k.aead, w.nonces, Packed(gzip, DataOf(w.read), EndOf(w.read)), LinkRoom(w));
  }

  /** A settled file is caught by one of the two checks. */
  lemma QuietRow(t: Tables, k: Setup, file: SourceFile, latest: Option<nat>)
    requires latest.Some? ==> FilesAt(t, file.path) != {} && IsLatest(t, TargetFile(t, file.path), latest.value)
    ensures Settled(t, k, file) ==> FilesAt(t, file.path) != {}
    ensures latest.Some? ==> latest.value in t.versions
    ensures latest.Some? && Settled(t, k, file) ==> t.versions[latest.value].hash == k.sha(file.content)
  {
    if latest.Some? {
      assert IsLatestOf(t, file.path, latest.value);
    }
  }

  lemma NewRowIsReferenced(t: Tables, u: Upload, evicted: Option<nat>, t': Tables)
    requires Upserted(t, u, evicted, t')
    ensures Referenced(t') <= Referenced(t) + {u.blob}
  {
  }

  lemma SameBlobs(t: Tables, source: string, mtime: int, t': Tables)
    requires Retimed(t, source, mtime, t')
    ensures Referenced(t') == Referenced(t)
  {
    TouchShrinks(t, Retime(source, mtime), t');
    forall blob
      ensures blob in Referenced(t') <==> blob in Referenced(t)
    {
      ReferencedIs(t, blob);
      ReferencedIs(t', blob);
      if v :| v in t.versions && t.versions[v].blob == blob {
        assert t'.versions[v].blob == blob;
      }
    }
  }

  lemma UploadStep(t: Tables, k: Setup, file: SourceFile, w: Weather, stored: Bytes, evicted: Option<nat>, t': Tables)
    requires Sound(t) && Upserted(t, UploadOf(k, file, w, stored), evicted, t') && !Settled(t, k, file)
    requires !w.cancelled
    ensures FileStep(k, file, w, t, t', false, false)
  {
    hide Sound, Upserted, Settled, Untied, Later, Trusted, SameRows, RetimedTo, RetimeDue;
    forall path | path != file.path
      ensures SameRows(t, t', path)
    {
      OtherUploadSame(t, UploadOf(k, file, w, stored), evicted, t', path);
    }
    if Later(t, file.path, w.now) {
      UploadSettles(t, k, file, w, stored, evicted, t');
    }
  }

  lemma NoStep(t: Tables, k: Setup, file: SourceFile, w: Weather, errored: bool, stuck: bool)
    requires !EndsWell(w, errored, stuck)
    ensures FileStep(k, file, w, t, t, errored, stuck)
  {
    hide Settled, Untied, Later, Trusted, RetimedTo, RetimeDue;
  }

  /** The latest version looks like the file: nothing is done, and nothing was to be done. */
  lemma SkipStep(t: Tables, k: Setup, file: SourceFile, w: Weather, latest: nat)
    requires FilesAt(t, file.path) != {} && IsLatest(t, TargetFile(t, file.path), latest)
    requires SameStat(t.versions[latest], file)
    ensures FileStep(k, file, w, t, t, false, false)
  {
    assert IsLatestOf(t, file.path, latest);
    hide IsLatestOf, FilesAt, TargetFile, IsLatest, Later, RetimedTo;
    if Untied(t, file.path) {
      NotDueIsSame(t, file);
    }
  }

  lemma RetimeStep(t: Tables, k: Setup, file: SourceFile, w: Weather, latest: nat, t': Tables)
    requires !w.cancelled && Sound(t) && if w.commitOk then Retimed(t, file.path, file.mtime, t') else t' == t
    requires FilesAt(t, file.path) != {} && IsLatest(t, TargetFile(t, file.path), latest)
    requires t.versions[latest].hash == k.sha(file.content)
    ensures FileStep(k, file, w, t, t', false, false)
  {
    RowsOfLatest(t, file.path, latest);
    if Untied(t, file.path) {
      HashSettles(t, k, file, latest);
    }
    hide Settled, Later, Trusted, SameRows, IsLatest, FilesAt, VersionsOf, TargetFile, RetimedTo, RetimeDue, IsLatestOf;
    if w.commitOk {
      forall path | path != file.path
        ensures SameRows(t, t', path)
      {
        OtherRetimeSame(t, file.path, file.mtime, t', path);
      }
      if Untied(t, file.path) {
        RetimedSettles(t, k, file, t');
      }
    } else {
      forall path
        ensures SameRows(t, t, path)
      {
        OwnRows(t, path);
      }
    }
    hide Sound, Retimed;
    SettledIsUntied(t, k, file);
  }

  lemma OwnRows(t: Tables, path: string)
    ensures SameRows(t, t, path)
  {
  }

  lemma SettledIsUntied(t: Tables, k: Setup, file: SourceFile)
    ensures Settled(t, k, file) ==> Untied(t, file.path)
  {
  }

  lemma HashSettles(t: Tables, k: Setup, file: SourceFile, latest: nat)
    requires IsLatestOf(t, file.path, latest) && Untied(t, file.path) && t.versions[latest].hash == k.sha(file.content)
    ensures Settled(t, k, file)
  {
  }

  lemma RetimedSettles(t: Tables, k: Setup, file: SourceFile, t': Tables)
    requires PathsUnique(t) && Settled(t, k, file) && VersionsOf(t, TargetFile(t, file.path)) != {}
    requires Retimed(t, file.path, file.mtime, t')
    ensures t' == RetimedTo(t, file) && Settled(t', k, file) && !RetimeDue(t', file)
  {
    RetimedIs(t, file, t');
    RetimedIsNotDue(t, file);
    RetimedToTimes(t, file);
    hide RetimedTo, RetimeDue, Settled, TimesOnly;
    TimesKeepSettled(t, t', k, file);
  }

  lemma RowsOfLatest(t: Tables, path: string, latest: nat)
    requires Sound(t) && FilesAt(t, path) != {} && IsLatest(t, TargetFile(t, path), latest)
    ensures IsLatestOf(t, path, latest) && PathsUnique(t) && VersionsOf(t, TargetFile(t, path)) != {}
  {
  }

  // ---------- Whole runs ----------

  /** Neither a row nor a remote object has this id. */
  ghost predicate Unknown(t: Tables, objects: map<BlobId, Bytes>, blob: BlobId) {
    blob !in objects && blob !in Referenced(t)
  }

  ghost predicate Drawn(ws: seq<Weather>, i: nat, blob: BlobId)
    requires i <= |ws|
  {
    exists j | 0 <= j < i :: ws[j].blob == blob
  }

  /** The blob ids drawn from number i on are fresh. */
  ghost predicate Fresh(t: Tables, objects: map<BlobId, Bytes>, ws: seq<Weather>, i: nat) {
    && (forall j | i <= j < |ws| :: Unknown(t, objects, ws[j].blob))
    && (forall j, l | i <= j < l < |ws| :: ws[j].blob != ws[l].blob)
  }

  /** An id unknown before the run and not drawn by it is unknown still. */
  ghost predicate NoOtherIds(t0: Tables, objects0: map<BlobId, Bytes>, t: Tables, objects: map<BlobId, Bytes>,
                             ws: seq<Weather>, i: nat)
    requires i <= |ws|
  {
    forall blob | !Drawn(ws, i, blob) && Unknown(t0, objects0, blob) :: Unknown(t, objects, blob)
  }

  /** File i of a run adds no id but its own. */
  lemma IdsStep(t0: Tables, objects0: map<BlobId, Bytes>, t: Tables, objects: map<BlobId, Bytes>,
                t': Tables, objects': map<BlobId, Bytes>, ws: seq<Weather>, i: nat)
    requires i < |ws| && Fresh(t, objects, ws, i) && NoOtherIds(t0, objects0, t, objects, ws, i)
    requires Referenced(t') <= Referenced(t) + {ws[i].blob} && objects'.Keys <= objects.Keys + {ws[i].blob}
    ensures Fresh(t', objects', ws, i + 1) && NoOtherIds(t0, objects0, t', objects', ws, i + 1)
  {
  }

  /** The walk met path among the first i files. */
  ghost predicate Met(files: seq<SourceFile>, i: nat, path: string)
    requires i <= |files|
  {
    exists j | 0 <= j < i :: files[j].path == path
  }

  /** Every path stands for one file throughout the run (source directories may overlap). */
  ghost predicate OneSource(files: seq<SourceFile>) {
    forall i, j | 0 <= i < |files| && 0 <= j < |files| && files[i].path == files[j].path :: files[i] == files[j]
  }

  /**
    Before the run no file's latest version is tied, the clock is past all of them, and the stat-based
    check can be trusted.
   */
  ghost predicate Ready(t: Tables, k: Setup, files: seq<SourceFile>, ws: seq<Weather>)
    requires |files| == |ws|
  {
    forall i | 0 <= i < |files| ::
      Untied(t, files[i].path) && Later(t, files[i].path, ws[i].now) && Trusted(t, k, files[i])
  }

  ghost predicate AllSettled(t: Tables, k: Setup, files: seq<SourceFile>, n: nat)
    requires n <= |files|
  {
    forall i | 0 <= i < n :: Settled(t, k, files[i])
  }

  ghost predicate NoneDue(t: Tables, files: seq<SourceFile>, n: nat)
    requires n <= |files|
  {
    forall i | 0 <= i < n :: !RetimeDue(t, files[i])
  }

  predicate NoneCancelled(ws: seq<Weather>) {
    forall i | 0 <= i < |ws| :: !ws[i].cancelled
  }

  predicate AllCommit(ws: seq<Weather>) {
    forall i | 0 <= i < |ws| :: ws[i].commitOk
  }

  predicate AllReadable(ws: seq<Weather>) {
    forall i | 0 <= i < |ws| :: CanBeRead(ws[i])
  }

  ghost predicate AllFair(k: Setup, gzip: Gzip, ws: seq<Weather>) {
    forall i | 0 <= i < |ws| :: Fair(k, gzip, ws[i])
  }

  /** The tables once the first i files have been found unchanged and their times recorded where that went through. */
  ghost function AfterRetimes(t: Tables, files: seq<SourceFile>, ws: seq<Weather>, i: nat): Tables
    requires i <= |files| == |ws|
  {
    if i == 0 then t
    else
      var before := AfterRetimes(t, files, ws, i - 1);
      if ws[i - 1].commitOk then RetimedTo(before, files[i - 1]) else before
  }

  /**
    A run over all files, one after the other; stuck says that a call never returned and the run never
    ends. The second run over an unchanged source is the case in which all files are settled before.
   */
  method BackupAll(agent: Agent, files: seq<SourceFile>, ws: seq<Weather>)
    returns (uploaded: nat, errs: nat, stuck: bool)
    requires Working(agent.k, agent.gzip) && Sound(agent.db.State())
    requires |files| == |ws| && OneSource(files) && Fresh(agent.db.State(), agent.remote.objects, ws, 0)
    modifies agent.db, agent.remote
    ensures Sound(agent.db.State())
    ensures errs == 0 && !stuck && NoneCancelled(ws) && Ready(old(agent.db.State()), agent.k, files, ws) ==>
      && AllSettled(agent.db.State(), agent.k, files, |files|)
      && (AllCommit(ws) ==> NoneDue(agent.db.State(), files, |files|))
    ensures AllSettled(old(agent.db.State()), agent.k, files, |files|) && AllReadable(ws) ==>
      && uploaded == 0 && errs == 0 && !stuck
      && agent.db.State() == AfterRetimes(old(agent.db.State()), files, ws, |files|)
      && agent.remote.objects == old(agent.remote.objects)
    ensures AllFair(agent.k, agent.gzip, ws) ==> errs == 0 && !stuck
    ensures NoOtherIds(old(agent.db.State()), old(agent.remote.objects),
                       agent.db.State(), agent.remote.objects, ws, |ws|)
  {
    hide *;
    ghost var t0, objects := agent.db.State(), agent.remote.objects;
    uploaded, errs, stuck := 0, 0, false;
    var i := 0;
    RunBegins(agent.k, agent.gzip, files, ws, t0, objects);
    while i < |files| && !stuck
      invariant i <= |files| && Sound(agent.db.State())
      invariant RunAt(agent.k, agent.gzip, files, ws, i, t0, objects,
                      agent.db.State(), agent.remote.objects, uploaded, errs, stuck)
      decreases |files| - i
    {
      ghost var t, before := agent.db.State(), agent.remote.objects;
      SoundIsUnique(t);
      NextIdIsFresh(agent.k, agent.gzip, files, ws, i, t0, objects, t, before, uploaded, errs);
      var n, hadErr;
      n, hadErr, stuck := ProcessOne(agent, files[i], ws[i]);
      RunStep(agent.k, agent.gzip, files, ws, i, t0, objects, t, before, uploaded, errs,
              agent.db.State(), agent.remote.objects, n, hadErr, stuck);
      uploaded, errs := uploaded + n, if hadErr then errs + 1 else errs;
      i := i + 1;
    }
    RunEnds(agent.k, agent.gzip, files, ws, i, t0, objects,
            agent.db.State(), agent.remote.objects, uploaded, errs, stuck);
  }

  /** Where a run stands before file i, or after a call for file i - 1 that never returned. */
  ghost predicate RunAt(k: Setup, gzip: Gzip, files: seq<SourceFile>, ws: seq<Weather>, i: nat,
                        t0: Tables, objects0: map<BlobId, Bytes>, t: Tables, objects: map<BlobId, Bytes>,
                        uploaded: nat, errs: nat, stuck: bool)
    requires i <= |files| == |ws|
  {
    && Fresh(t, objects, ws, i) && NoOtherIds(t0, objects0, t, objects, ws, i)
    && UnmetSame(t0, t, files, i)
    && PathsUnique(t0)
    && (AllFair(k, gzip, ws) ==> errs == 0 && !stuck)
    && (errs == 0 && !stuck && NoneCancelled(ws) && Ready(t0, k, files, ws) ==>
          AllSettled(t, k, files, i) && (AllCommit(ws) ==> NoneDue(t, files, i)))
    && (AllSettled(t0, k, files, |files|) && AllReadable(ws) ==>
          uploaded == 0 && errs == 0 && !stuck && t == AfterRetimes(t0, files, ws, i) && objects == objects0)
  }

  lemma RunBegins(k: Setup, gzip: Gzip, files: seq<SourceFile>, ws: seq<Weather>, t: Tables,
                  objects: map<BlobId, Bytes>)
    requires |files| == |ws| && Fresh(t, objects, ws, 0) && Sound(t)
    ensures RunAt(k, gzip, files, ws, 0, t, objects, t, objects, 0, 0, false)
  {
    assert UnmetSame(t, t, files, 0);
    hide SameRows, Settled, RetimeDue, Fair, CanBeRead;
  }

  lemma RunEnds(k: Setup, gzip: Gzip, files: seq<SourceFile>, ws: seq<Weather>, i: nat,
                t0: Tables, objects0: map<BlobId, Bytes>, t: Tables, objects: map<BlobId, Bytes>,
                uploaded: nat, errs: nat, stuck: bool)
    requires i <= |files| == |ws| && RunAt(k, gzip, files, ws, i, t0, objects0, t, objects, uploaded, errs, stuck)
    requires i < |files| ==> stuck
    ensures NoOtherIds(t0, objects0, t, objects, ws, |ws|)
    ensures AllFair(k, gzip, ws) ==> errs == 0 && !stuck
    ensures errs == 0 && !stuck && NoneCancelled(ws) && Ready(t0, k, files, ws) ==>
      AllSettled(t, k, files, |files|) && (AllCommit(ws) ==> NoneDue(t, files, |files|))
    ensures AllSettled(t0, k, files, |files|) && AllReadable(ws) ==>
      uploaded == 0 && errs == 0 && !stuck && t == AfterRetimes(t0, files, ws, |files|) && objects == objects0
  {
    assert NoOtherIds(t0, objects0, t, objects, ws, |ws|) by {
      forall blob | Drawn(ws, i, blob)
        ensures Drawn(ws, |ws|, blob)
      {
      }
    }
    hide AllFair, Ready, AllSettled, NoneDue, NoneCancelled;
    hide AllCommit, AllReadable, Fresh, UnmetSame, NoOtherIds, AfterRetimes;
  }

  lemma NextIdIsFresh(k: Setup, gzip: Gzip, files: seq<SourceFile>, ws: seq<Weather>, i: nat,
                      t0: Tables, objects0: map<BlobId, Bytes>, t: Tables, objects: map<BlobId, Bytes>,
                      uploaded: nat, errs: nat)
    requires i < |files| == |ws| && RunAt(k, gzip, files, ws, i, t0, objects0, t, objects, uploaded, errs, false)
    ensures ws[i].blob !in objects && ws[i].blob !in Referenced(t)
  {
  }

  /** One more file: the ones before it stay settled, the ones after it are as they were. */
  lemma RunStep(k: Setup, gzip: Gzip, files: seq<SourceFile>, ws: seq<Weather>, i: nat,
                t0: Tables, objects0: map<BlobId, Bytes>, t: Tables, objects: map<BlobId, Bytes>,
                uploaded: nat, errs: nat,
                t': Tables, objects': map<BlobId, Bytes>, n: nat, errored: bool, stuck: bool)
    requires i < |files| == |ws| && OneSource(files)
    requires RunAt(k, gzip, files, ws, i, t0, objects0, t, objects, uploaded, errs, false)
    requires PathsUnique(t) && FileStep(k, files[i], ws[i], t, t', errored, stuck)
    requires Referenced(t') <= Referenced(t) + {ws[i].blob} && objects'.Keys <= objects.Keys + {ws[i].blob}
    requires Settled(t, k, files[i]) && CanBeRead(ws[i]) ==> n == 0 && !errored && !stuck && objects' == objects
    requires Fair(k, gzip, ws[i]) ==> !errored && !stuck
    ensures RunAt(k, gzip, files, ws, i + 1, t0, objects0, t', objects',
                  uploaded + n, if errored then errs + 1 else errs, stuck)
  {
    hide Settled, Untied, Later, Trusted, SameRows, Referenced;
    hide Fair, Fresh, NoOtherIds, RetimedTo, RetimeDue, PathsUnique, CanBeRead;
    IdsStep(t0, objects0, t, objects, t', objects', ws, i);
    UnmetStep(k, files, ws, i, t0, t, t', errored, stuck);
    OneOfAll(k, gzip, files, ws, i);
    assert AllSettled(t0, k, files, |files|) && AllReadable(ws) ==>
      Settled(t, k, files[i]) && EndsWell(ws[i], errored, stuck) by {
      if AllSettled(t0, k, files, |files|) && AllReadable(ws) {
        RetimesKeepSettled(t0, k, files, ws, i, files[i]);
        ReadableIsNotCancelled(ws[i]);
      }
    }
    if !errored && !stuck && errs == 0 && NoneCancelled(ws) && Ready(t0, k, files, ws) {
      RowsStep(k, files, ws, i, t0, t, t');
    }
    hide UnmetSame, AllSettled, NoneDue, AllFair, AllReadable, AllCommit, NoneCancelled, Ready, OneSource;
  }

  lemma ReadableIsNotCancelled(w: Weather)
    ensures CanBeRead(w) ==> !w.cancelled
  {
  }

  lemma OneOfAll(k: Setup, gzip: Gzip, files: seq<SourceFile>, ws: seq<Weather>, i: nat)
    requires i < |files| == |ws|
    ensures AllReadable(ws) ==> CanBeRead(ws[i])
    ensures AllFair(k, gzip, ws) ==> Fair(k, gzip, ws[i])
  {
  }

  lemma {:induction false} RetimesAreTimes(t0: Tables, files: seq<SourceFile>, ws: seq<Weather>, i: nat)
    requires i <= |files| == |ws|
    ensures TimesOnly(t0, AfterRetimes(t0, files, ws, i))
  {
    if i > 0 {
      RetimesAreTimes(t0, files, ws, i - 1);
      var t := AfterRetimes(t0, files, ws, i - 1);
      RetimedToTimes(t, files[i - 1]);
      hide RetimedTo;
      TimesChain(t0, t, RetimedTo(t, files[i - 1]));
    }
  }

  lemma TimesChain(t: Tables, t': Tables, t'': Tables)
    requires TimesOnly(t, t') && TimesOnly(t', t'')
    ensures TimesOnly(t, t'')
  {
  }

  lemma RetimesKeepSettled(t0: Tables, k: Setup, files: seq<SourceFile>, ws: seq<Weather>, i: nat, file: SourceFile)
    requires i <= |files| == |ws| && file in files && PathsUnique(t0) && AllSettled(t0, k, files, |files|)
    ensures Settled(AfterRetimes(t0, files, ws, i), k, file)
  {
    RetimesAreTimes(t0, files, ws, i);
    TimesKeepSettled(t0, AfterRetimes(t0, files, ws, i), k, file);
  }

  /** The rows of a file the run has not met are as they were. */
  ghost predicate UnmetSame(t0: Tables, t: Tables, files: seq<SourceFile>, i: nat)
    requires i <= |files|
  {
    forall path | !Met(files, i, path) :: SameRows(t0, t, path)
  }

  lemma UnmetStep(k: Setup, files: seq<SourceFile>, ws: seq<Weather>, i: nat, t0: Tables, t: Tables, t': Tables,
                  errored: bool, stuck: bool)
    requires i < |files| == |ws| && FileStep(k, files[i], ws[i], t, t', errored, stuck) && UnmetSame(t0, t, files, i)
    ensures UnmetSame(t0, t', files, i + 1)
  {
    hide Settled, Untied, Later, Trusted, SameRows, RetimedTo, RetimeDue;
    forall path | !Met(files, i + 1, path)
      ensures SameRows(t0, t', path)
    {
      assert !Met(files, i, path) && path != files[i].path;
      SameRowsChain(t0, t, t', path);
    }
  }

  lemma RowsStep(k: Setup, files: seq<SourceFile>, ws: seq<Weather>, i: nat, t0: Tables, t: Tables, t': Tables)
    requires i < |files| == |ws| && OneSource(files) && PathsUnique(t)
      && FileStep(k, files[i], ws[i], t, t', false, false)
    requires UnmetSame(t0, t, files, i) && NoneCancelled(ws) && Ready(t0, k, files, ws)
    requires AllSettled(t, k, files, i) && (AllCommit(ws) ==> NoneDue(t, files, i))
    ensures AllSettled(t', k, files, i + 1) && (AllCommit(ws) ==> NoneDue(t', files, i + 1))
  {
    hide Settled, Untied, Later, Trusted, SameRows, RetimedTo, RetimeDue, PathsUnique;
    forall j | 0 <= j < i + 1
      ensures Settled(t', k, files[j]) && (AllCommit(ws) ==> !RetimeDue(t', files[j]))
    {
      FileSettles(k, files, ws, i, j, t0, t, t');
    }
  }

  lemma FileSettles(k: Setup, files: seq<SourceFile>, ws: seq<Weather>, i: nat, j: nat, t0: Tables, t: Tables,
                    t': Tables)
    requires j <= i < |files| == |ws| && OneSource(files) && PathsUnique(t)
      && FileStep(k, files[i], ws[i], t, t', false, false)
    requires UnmetSame(t0, t, files, i) && NoneCancelled(ws) && Ready(t0, k, files, ws)
    requires AllSettled(t, k, files, i) && (AllCommit(ws) ==> NoneDue(t, files, i))
    ensures Settled(t', k, files[j]) && (AllCommit(ws) ==> !RetimeDue(t', files[j]))
  {
    hide Settled, Untied, Later, Trusted, SameRows, RetimedTo, RetimeDue, PathsUnique;
    assert EndsWell(ws[i], false, false);
    if files[j].path != files[i].path {
      SameIsAsGood(t, t', k, files[j], ws[i].now);
    } else if Met(files, i, files[i].path) {
      var l :| 0 <= l < i && files[l].path == files[i].path;
      assert files[l] == files[i] == files[j];
      RetimedToTimes(t, files[i]);
      TimesKeepSettled(t, RetimedTo(t, files[i]), k, files[i]);
      RetimedIsNotDue(t, files[i]);
    } else {
      assert files[j] == files[i];
      SameIsAsGood(t0, t, k, files[i], ws[i].now);
    }
  }

  // ---------- What a run over settled files changes ----------

  /** A row's modification time after the first n files: the one recorded last, or the old one. */
  ghost predicate TimeOfRow(t0: Tables, t: Tables, files: seq<SourceFile>, ws: seq<Weather>, n: nat, v: nat)
    requires n <= |files| == |ws| && v in t0.versions
  {
    && v in t.versions
    && (forall j | 0 <= j < n && ws[j].commitOk && IsLatestOf(t0, files[j].path, v) ::
          t.versions[v].mtime == files[j].mtime)
    && ((forall j | 0 <= j < n && ws[j].commitOk :: !IsLatestOf(t0, files[j].path, v)) ==>
          t.versions[v].mtime == t0.versions[v].mtime)
  }

  ghost predicate TimesAfter(t0: Tables, t: Tables, files: seq<SourceFile>, ws: seq<Weather>, n: nat)
    requires n <= |files| == |ws|
  {
    forall v | v in t0.versions :: TimeOfRow(t0, t, files, ws, n, v)
  }

  lemma OneFileOneRow(t: Tables, files: seq<SourceFile>, i: nat, j: nat, v: nat)
    requires i < |files| && j < |files| && OneSource(files) && PathsUnique(t)
    requires IsLatestOf(t, files[i].path, v) && IsLatestOf(t, files[j].path, v)
    ensures files[i] == files[j]
  {
    var f := t.versions[v].file;
    TargetIsUnique(t, files[i].path);
    TargetIsUnique(t, files[j].path);
    var g :| g in FilesAt(t, files[i].path);
    var h :| h in FilesAt(t, files[j].path);
    assert g == f && h == f;
  }

  lemma {:induction false} TimesAfterRun(t0: Tables, files: seq<SourceFile>, ws: seq<Weather>, n: nat)
    requires n <= |files| == |ws| && OneSource(files) && PathsUnique(t0)
    ensures TimesAfter(t0, AfterRetimes(t0, files, ws, n), files, ws, n)
  {
    hide TimesAfter, OneSource, PathsUnique, RetimedTo;
    if n > 0 {
      TimesAfterRun(t0, files, ws, n - 1);
      RetimesAreTimes(t0, files, ws, n - 1);
      TimesAfterFile(t0, AfterRetimes(t0, files, ws, n - 1), files, ws, n - 1);
    } else {
      NoTimesAfter(t0, files, ws);
    }
  }

  lemma NoTimesAfter(t: Tables, files: seq<SourceFile>, ws: seq<Weather>)
    requires |files| == |ws|
    ensures TimesAfter(t, t, files, ws, 0)
  {
  }

  lemma TimesAfterFile(t0: Tables, t: Tables, files: seq<SourceFile>, ws: seq<Weather>, n: nat)
    requires n < |files| == |ws| && OneSource(files) && PathsUnique(t0)
    requires TimesOnly(t0, t) && TimesAfter(t0, t, files, ws, n)
    ensures TimesAfter(t0, if ws[n].commitOk then RetimedTo(t, files[n]) else t, files, ws, n + 1)
  {
    var t' := if ws[n].commitOk then RetimedTo(t, files[n]) else t;
    hide TimeOfRow, OneSource, PathsUnique, IsLatestOf, RetimedTo;
    forall v | v in t0.versions
      ensures TimeOfRow(t0, t', files, ws, n + 1, v)
    {
      RowAfterFile(t0, t, files, ws, n, v);
    }
  }

  lemma RowAfterFile(t0: Tables, t: Tables, files: seq<SourceFile>, ws: seq<Weather>, n: nat, v: nat)
    requires n < |files| == |ws| && OneSource(files) && PathsUnique(t0)
    requires TimesOnly(t0, t) && v in t0.versions && TimeOfRow(t0, t, files, ws, n, v)
    ensures TimeOfRow(t0, if ws[n].commitOk then RetimedTo(t, files[n]) else t, files, ws, n + 1, v)
  {
    RetimedToTimes(t, files[n]);
    TimesKeepLatest(t0, t, files[n].path, v);
    hide RetimedTo, TimesOnly, OneSource, PathsUnique, IsLatestOf;
    if ws[n].commitOk && IsLatestOf(t0, files[n].path, v) {
      forall j | 0 <= j < n + 1 && ws[j].commitOk && IsLatestOf(t0, files[j].path, v)
        ensures files[j] == files[n]
      {
        OneFileOneRow(t0, files, j, n, v);
      }
    }
  }

  /** A run over settled files changes the tables exactly when some file's time was due and its update went through. */
  lemma RetimesChangeIff(t0: Tables, files: seq<SourceFile>, ws: seq<Weather>)
    requires |files| == |ws| && OneSource(files) && PathsUnique(t0)
    ensures AfterRetimes(t0, files, ws, |files|) != t0
       <==> exists j :: 0 <= j < |files| && ws[j].commitOk && RetimeDue(t0, files[j])
  {
    var n := |files|;
    var t := AfterRetimes(t0, files, ws, n);
    RetimesAreTimes(t0, files, ws, n);
    TimesAfterRun(t0, files, ws, n);
    hide AfterRetimes, OneSource, PathsUnique, IsLatestOf;
    if forall j | 0 <= j < n && ws[j].commitOk :: !RetimeDue(t0, files[j]) {
      forall v | v in t0.versions
        ensures t.versions[v] == t0.versions[v]
      {
        assert TimeOfRow(t0, t, files, ws, n, v);
        if j :| 0 <= j < n && ws[j].commitOk && IsLatestOf(t0, files[j].path, v) {
          assert !RetimeDue(t0, files[j]);
        }
      }
      assert t.versions == t0.versions;
    }
    if j :| 0 <= j < n && ws[j].commitOk && RetimeDue(t0, files[j]) {
      var v :| IsLatestOf(t0, files[j].path, v) && t0.versions[v].mtime != files[j].mtime;
      LatestIsARowOf(t0, files[j].path, v);
      assert TimeOfRow(t0, t, files, ws, n, v);
    }
  }

  lemma LatestIsARowOf(t: Tables, path: string, v: nat)
    requires IsLatestOf(t, path, v)
    ensures v in t.versions
  {
  }

  /**
    After a run without errors every file's latest version has the hash of its content, and a second run
    over the unchanged source uploads nothing and leaves the remote store alone. It changes a row
    exactly when recording a file's new time had failed in the first run and now goes through.
   */
  method BackupTwice(agent: Agent, files: seq<SourceFile>, first: seq<Weather>, second: seq<Weather>)
    returns (errs: nat, again: nat, stuck: bool, ghost between: Tables, ghost stored: map<BlobId, Bytes>)
    requires Working(agent.k, agent.gzip) && Sound(agent.db.State())
    requires |files| == |first| == |second| && OneSource(files)
    requires Fresh(agent.db.State(), agent.remote.objects, first + second, 0)
    modifies agent.db, agent.remote
    ensures AllFair(agent.k, agent.gzip, first) ==> errs == 0 && !stuck
    ensures errs == 0 && !stuck && NoneCancelled(first) && Ready(old(agent.db.State()), agent.k, files, first) ==>
      && AllSettled(between, agent.k, files, |files|)
      && (AllCommit(first) ==> NoneDue(between, files, |files|))
      && (AllReadable(second) ==>
            && again == 0 && agent.remote.objects == stored
            && agent.db.State() == AfterRetimes(between, files, second, |files|)
            && (agent.db.State() != between <==>
                  exists j :: 0 <= j < |files| && second[j].commitOk && RetimeDue(between, files[j]))
            && (AllCommit(first) ==> agent.db.State() == between))
  {
    hide *;
    FreshParts(agent.db.State(), agent.remote.objects, first, second);
    var uploaded;
    uploaded, errs, stuck := BackupAll(agent, files, first);
    between, stored := agent.db.State(), agent.remote.objects;
    again := 0;
    if errs == 0 && !stuck {
      SecondIsFresh(old(agent.db.State()), old(agent.remote.objects), between, stored, first, second);
      SoundIsUnique(between);
      var errsAgain, stuckAgain;
      again, errsAgain, stuckAgain := BackupAll(agent, files, second);
      RetimesChangeIff(between, files, second);
      NothingDue(between, files, second);
    }
  }

  lemma NothingDue(t: Tables, files: seq<SourceFile>, ws: seq<Weather>)
    requires |files| == |ws|
    ensures NoneDue(t, files, |files|) ==> !exists j :: 0 <= j < |files| && ws[j].commitOk && RetimeDue(t, files[j])
  {
    hide RetimeDue;
  }

  lemma SoundIsUnique(t: Tables)
    requires Sound(t)
    ensures PathsUnique(t)
  {
  }

  lemma FreshParts(t: Tables, objects: map<BlobId, Bytes>, first: seq<Weather>, second: seq<Weather>)
    requires Fresh(t, objects, first + second, 0)
    ensures Fresh(t, objects, first, 0)
  {
    hide Unknown;
    var ws := first + second;
    assert forall i | 0 <= i < |first| :: ws[i] == first[i];
  }

  lemma SecondIsFresh(t0: Tables, objects0: map<BlobId, Bytes>, t: Tables, objects: map<BlobId, Bytes>,
                      first: seq<Weather>, second: seq<Weather>)
    requires Fresh(t0, objects0, first + second, 0) && NoOtherIds(t0, objects0, t, objects, first, |first|)
    ensures Fresh(t, objects, second, 0)
  {
    hide Unknown;
    var ws := first + second;
    assert forall j | 0 <= j < |second| :: ws[|first| + j] == second[j];
    assert forall i | 0 <= i < |first| :: ws[i] == first[i];
    forall j | 0 <= j < |second|
      ensures Unknown(t, objects, second[j].blob)
    {
      assert !Drawn(first, |first|, second[j].blob);
      assert Unknown(t0, objects0, ws[|first| + j].blob);
    }
  }
}
