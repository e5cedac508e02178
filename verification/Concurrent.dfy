/**
  A backup by many workers at once: the calls of processFile for different files, cut where they reach
  the tables or the remote store, in any interleaving.
 */
module Concurrent {
  import opened Basics
  import opened Streams
  import opened Container
  import opened Database
  import opened Protocol
  import opened Backup
  import opened Incremental
  import WorkerPool

  /** Where the call for one file is. */
  datatype Phase =
    | Todo
    | Retiming
    | Sending
    | Hanging
    | Sent
    | Displacing(gone: Option<BlobId>)
    | Returned(uploaded: bool, errored: bool)

  datatype State = State(db: Tables, objects: map<BlobId, Bytes>, phases: seq<Phase>)

  /** Look reads the latest row, Record and Insert are the transactions, Transfer and Evict reach the remote store. */
  datatype Action = Look(i: nat) | Record(i: nat) | Transfer(i: nat) | Insert(i: nat) | Evict(i: nat)

  /** The files of a walk, each under its own path, and what becomes of each call. */
  datatype Plan = Plan(k: Setup, gzip: Gzip, files: seq<SourceFile>, ws: seq<Weather>)

  ghost predicate Distinct(files: seq<SourceFile>) {
    forall i, j | 0 <= i < j < |files| :: files[i].path != files[j].path
  }

  ghost predicate PlanOk(c: Plan) {
    |c.files| == |c.ws| && Distinct(c.files) && Working(c.k, c.gzip)
  }

  /** What GetLatestVersionInfo can answer. */
  ghost predicate LatestRow(t: Tables, path: string, row: Option<VersionRow>) {
    match row
    case None => FilesAt(t, path) == {}
    case Some(r) => exists v :: IsLatestOf(t, path, v) && t.versions[v] == r
  }

  /** What the checks of processFile lead to. */
  function AfterLook(k: Setup, file: SourceFile, w: Weather, row: Option<VersionRow>): Phase {
    if w.cancelled then Returned(false, false)
    else if !w.statOk || !w.infoOk then Returned(false, true)
    else if row.Some? && SameStat(row.value, file) then Returned(false, false)
    else if !w.hashOk then Returned(false, true)
    else if row.Some? && row.value.hash == k.sha(file.content) then Retiming
    else if !w.openOk then Returned(false, true)
    else Sending
  }

  ghost function AfterTransfer(c: Plan, w: Weather): Phase {
    if CallStalls(c.k, c.gzip, w) then Hanging
    else if TransferOk(c.k, c.gzip, w) then Sent
    else Returned(false, true)
  }

  function BlobsOf(t: Tables, evicted: Option<nat>): Option<BlobId>
    requires evicted.Some? ==> evicted.value in t.versions
  {
    if evicted.Some? then Some(t.versions[evicted.value].blob) else None
  }

  ghost predicate Uploaded(c: Plan, i: nat, s: State, evicted: Option<nat>, s': State)
    requires i < |c.files| == |c.ws| && i < |s.phases|
  {
    && Upserted(s.db, UploadOf(c.k, c.files[i], c.ws[i], BlobFor(c.k, c.gzip, c.ws[i])), evicted, s'.db)
    && (evicted.Some? ==> evicted.value in s.db.versions)
    && s' == s.(db := s'.db, phases := s.phases[i := Displacing(BlobsOf(s.db, evicted))])
  }

  ghost predicate Next(c: Plan, s: State, act: Action, s': State) {
    var i := act.i;
    i < |s.phases| == |c.files| == |c.ws| &&
    var file, w, phase := c.files[i], c.ws[i], s.phases[i];
    match act
    case Look(_) =>
      phase.Todo? && exists row ::
        LatestRow(s.db, file.path, row) && s' == s.(phases := s.phases[i := AfterLook(c.k, file, w, row)])
    case Record(_) =>
      && phase.Retiming? && s' == s.(db := s'.db, phases := s.phases[i := Returned(false, false)])
      && (if w.commitOk then Retimed(s.db, file.path, file.mtime, s'.db) else s'.db == s.db)
    case Transfer(_) =>
      && phase.Sending? && s' == s.(objects := s'.objects, phases := s.phases[i := AfterTransfer(c, w)])
      && s'.objects - {w.blob} == s.objects - {w.blob}
      && (AfterTransfer(c, w).Sent? ==> s'.objects == s.objects[w.blob := BlobFor(c.k, c.gzip, w)])
    case Insert(_) =>
      phase.Sent? &&
      if w.commitOk then exists evicted :: Uploaded(c, i, s, evicted, s')
      else s' == s.(phases := s.phases[i := Returned(false, true)])
    case Evict(_) =>
      && phase.Displacing? && s' == s.(objects := s'.objects, phases := s.phases[i := Returned(true, false)])
      && s'.objects == s.objects - (if phase.gone.Some? && w.deleteOk then {phase.gone.value} else {})
  }

  function Start(c: Plan, db: Tables, objects: map<BlobId, Bytes>): State {
    State(db, objects, seq(|c.files|, i => Todo))
  }

  ghost predicate Run(c: Plan, ss: seq<State>, acts: seq<Action>) {
    && |ss| == |acts| + 1
    && ss[0] == Start(c, ss[0].db, ss[0].objects)
    && forall n | 0 <= n < |acts| :: Next(c, ss[n], acts[n], ss[n + 1])
  }

  /** Every call has returned. */
  predicate AllReturned(s: State) {
    forall i | 0 <= i < |s.phases| :: s.phases[i].Returned?
  }

  predicate NoErrors(s: State) {
    forall i | 0 <= i < |s.phases| && s.phases[i].Returned? :: !s.phases[i].errored
  }

  // ---------- One file beside the others ----------

  /** A step for one file leaves the rows of all other paths alone. */
  lemma OthersStay(c: Plan, s: State, act: Action, s': State, path: string)
    requires PlanOk(c) && Next(c, s, act, s') && Sound(s.db) && path != c.files[act.i].path
    ensures SameRows(s.db, s'.db, path)
  {
    hide Upserted, Retimed, SameRows, Sound;
    OwnRows(s.db, path);
    var file, w := c.files[act.i], c.ws[act.i];
    match act {
      case Record(_) =>
        if w.commitOk {
          OtherRetimeSame(s.db, file.path, file.mtime, s'.db, path);
        }
      case Insert(_) =>
        if w.commitOk {
          var evicted :| Uploaded(c, act.i, s, evicted, s');
          OtherUploadSame(s.db, UploadOf(c.k, file, w, BlobFor(c.k, c.gzip, w)), evicted, s'.db, path);
        }
      case _ =>
    }
  }

  lemma StepKeepsTables(c: Plan, s: State, act: Action, s': State)
    requires PlanOk(c) && Next(c, s, act, s') && Sound(s.db)
    ensures Sound(s'.db)
  {
    hide Upserted, Retimed, Sound;
    var file, w := c.files[act.i], c.ws[act.i];
    match act {
      case Record(_) =>
        if w.commitOk {
          StepKeepsSound(s.db, Retime(file.path, file.mtime), s'.db);
        }
      case Insert(_) =>
        if w.commitOk {
          var evicted :| Uploaded(c, act.i, s, evicted, s');
          UpsertKeepsSound(s.db, UploadOf(c.k, file, w, BlobFor(c.k, c.gzip, w)), evicted, s'.db);
        }
      case _ =>
    }
  }

  /** What the call for one file has done to the rows of its path since t0. */
  ghost predicate Treated(c: Plan, i: nat, t0: Tables, t: Tables)
    requires i < |c.files| == |c.ws|
  {
    exists before, after ::
      && SameRows(t0, before, c.files[i].path) && SameRows(after, t, c.files[i].path)
      && FileStep(c.k, c.files[i], c.ws[i], before, after, false, false)
  }

  /** The latest row the call found was not like the file, or was. */
  ghost predicate OneLike(c: Plan, i: nat, t0: Tables)
    requires i < |c.files|
  {
    exists v :: IsLatestOf(t0, c.files[i].path, v) && t0.versions[v].hash == c.k.sha(c.files[i].content)
  }

  /** The rows of a file, by the phase of its call. */
  ghost predicate FileInv(c: Plan, i: nat, t0: Tables, s: State)
    requires i < |c.files| == |c.ws| == |s.phases|
  {
    var path := c.files[i].path;
    match s.phases[i]
    case Todo => SameRows(t0, s.db, path)
    case Retiming => SameRows(t0, s.db, path) && OneLike(c, i, t0) && !c.ws[i].cancelled
    case Sending => SameRows(t0, s.db, path) && !Settled(t0, c.k, c.files[i]) && !c.ws[i].cancelled
    case Hanging => SameRows(t0, s.db, path) && !Settled(t0, c.k, c.files[i])
    case Sent => SameRows(t0, s.db, path) && !Settled(t0, c.k, c.files[i]) && !c.ws[i].cancelled
    case Displacing(_) => Treated(c, i, t0, s.db) && !Settled(t0, c.k, c.files[i]) && !c.ws[i].cancelled
    case Returned(uploaded, errored) =>
      && (errored || c.ws[i].cancelled ==> SameRows(t0, s.db, path))
      && (!errored && !c.ws[i].cancelled ==> Treated(c, i, t0, s.db))
      && (uploaded ==> !Settled(t0, c.k, c.files[i]))
      && (errored && CanBeRead(c.ws[i]) ==> !Settled(t0, c.k, c.files[i]))
  }

  ghost predicate Inv(c: Plan, t0: Tables, s: State) {
    && |c.files| == |c.ws| == |s.phases| && Sound(s.db)
    && (forall i | 0 <= i < |c.files| :: FileInv(c, i, t0, s))
    && (forall path | (forall i | 0 <= i < |c.files| :: c.files[i].path != path) :: SameRows(t0, s.db, path))
  }

  lemma StartIsGood(c: Plan, s: State)
    requires PlanOk(c) && Sound(s.db) && s == Start(c, s.db, s.objects)
    ensures Inv(c, s.db, s)
  {
    hide SameRows, Sound;
    forall path
      ensures SameRows(s.db, s.db, path)
    {
      OwnRows(s.db, path);
    }
  }

  lemma TreatedStays(c: Plan, i: nat, t0: Tables, t: Tables, t': Tables)
    requires i < |c.files| == |c.ws| && Treated(c, i, t0, t) && SameRows(t, t', c.files[i].path)
    ensures Treated(c, i, t0, t')
  {
    var path := c.files[i].path;
    hide SameRows, FileStep;
    var before, after :|
      && SameRows(t0, before, path) && SameRows(after, t, path)
      && FileStep(c.k, c.files[i], c.ws[i], before, after, false, false);
    SameRowsChain(after, t, t', path);
  }

  /** Rows that stay keep what is known of a file. */
  lemma OtherFileKeeps(c: Plan, i: nat, t0: Tables, s: State, s': State)
    requires i < |c.files| == |c.ws| == |s.phases| == |s'.phases| && s'.phases[i] == s.phases[i]
    requires FileInv(c, i, t0, s) && SameRows(s.db, s'.db, c.files[i].path)
    ensures FileInv(c, i, t0, s')
  {
    var path := c.files[i].path;
    hide SameRows, Settled, Treated, OneLike;
    if SameRows(t0, s.db, path) {
      SameRowsChain(t0, s.db, s'.db, path);
    }
    if Treated(c, i, t0, s.db) {
      TreatedStays(c, i, t0, s.db, s'.db);
    }
  }

  lemma IsTreated(c: Plan, i: nat, t0: Tables, t: Tables, t': Tables)
    requires i < |c.files| == |c.ws| && SameRows(t0, t, c.files[i].path)
    requires FileStep(c.k, c.files[i], c.ws[i], t, t', false, false)
    ensures Treated(c, i, t0, t')
  {
    hide SameRows, FileStep;
    OwnRows(t', c.files[i].path);
  }

  /** What the row that a look finds says of the file. */
  lemma RowTells(c: Plan, i: nat, t0: Tables, t: Tables, row: Option<VersionRow>)
    requires i < |c.files| == |c.ws| && SameRows(t0, t, c.files[i].path) && LatestRow(t, c.files[i].path, row)
    ensures row.Some? && SameStat(row.value, c.files[i]) ==> Treated(c, i, t0, t)
    ensures row.Some? && row.value.hash == c.k.sha(c.files[i].content) ==> OneLike(c, i, t0)
    ensures row.None? || row.value.hash != c.k.sha(c.files[i].content) ==> !Settled(t0, c.k, c.files[i])
  {
    var file, w := c.files[i], c.ws[i];
    hide SameRows, FileStep, SameStat, Settled, Treated;
    if row.Some? {
      var v :| IsLatestOf(t, file.path, v) && t.versions[v] == row.value;
      LatestIsSame(t0, t, file.path, v);
      FoundDecides(t0, c.k, file, v);
      if SameStat(row.value, file) {
        SkipStep(t, c.k, file, w, v);
        hide IsLatestOf;
        IsTreated(c, i, t0, t, t);
      }
    } else {
      NoFileIsUnsettled(t0, t, c.k, file);
    }
  }

  lemma LookKeeps(c: Plan, t0: Tables, s: State, i: nat, s': State)
    requires PlanOk(c) && Next(c, s, Look(i), s') && FileInv(c, i, t0, s)
    ensures FileInv(c, i, t0, s')
  {
    var row := LookFinds(c, s, i, s');
    hide SameRows, LatestRow, Settled, Treated, OneLike, SameStat, PlanOk;
    assert SameRows(t0, s.db, c.files[i].path);
    RowTells(c, i, t0, s.db, row);
    hide Next;
  }

  lemma FoundDecides(t: Tables, k: Setup, file: SourceFile, v: nat)
    requires IsLatestOf(t, file.path, v)
    ensures v in t.versions && (t.versions[v].hash != k.sha(file.content) ==> !Settled(t, k, file))
  {
  }

  lemma NoFileIsUnsettled(t0: Tables, t: Tables, k: Setup, file: SourceFile)
    requires SameRows(t0, t, file.path) && FilesAt(t, file.path) == {}
    ensures !Settled(t0, k, file)
  {
  }

  lemma RecordTreats(c: Plan, i: nat, t0: Tables, t: Tables, t': Tables)
    requires i < |c.files| == |c.ws| && SameRows(t0, t, c.files[i].path) && OneLike(c, i, t0) && !c.ws[i].cancelled
    requires Sound(t) && if c.ws[i].commitOk then Retimed(t, c.files[i].path, c.files[i].mtime, t') else t' == t
    ensures Treated(c, i, t0, t')
  {
    var file := c.files[i];
    var v :| IsLatestOf(t0, file.path, v) && t0.versions[v].hash == c.k.sha(file.content);
    LatestIsSame(t0, t, file.path, v);
    hide SameRows, FileStep, Sound, Retimed, Treated;
    assert FilesAt(t, file.path) != {} && IsLatest(t, TargetFile(t, file.path), v);
    hide IsLatestOf, IsLatest, FilesAt, TargetFile;
    RetimeStep(t, c.k, file, c.ws[i], v, t');
    IsTreated(c, i, t0, t, t');
  }

  lemma RecordKeeps(c: Plan, t0: Tables, s: State, i: nat, s': State)
    requires PlanOk(c) && Next(c, s, Record(i), s') && Sound(s.db) && FileInv(c, i, t0, s)
    ensures FileInv(c, i, t0, s')
  {
    hide SameRows, Sound, Settled, Retimed, Treated, OneLike;
    RecordTreats(c, i, t0, s.db, s'.db);
  }

  lemma InsertTreats(c: Plan, i: nat, t0: Tables, t: Tables, evicted: Option<nat>, t': Tables)
    requires i < |c.files| == |c.ws| && SameRows(t0, t, c.files[i].path) && !c.ws[i].cancelled
    requires Sound(t) && !Settled(t0, c.k, c.files[i])
    requires Upserted(t, UploadOf(c.k, c.files[i], c.ws[i], BlobFor(c.k, c.gzip, c.ws[i])), evicted, t')
    ensures Treated(c, i, t0, t')
  {
    var file, w := c.files[i], c.ws[i];
    hide SameRows, FileStep, Sound, Settled, Upserted, UploadOf, BlobFor, Treated;
    SameIsAsGood(t0, t, c.k, file, w.now);
    UploadStep(t, c.k, file, w, BlobFor(c.k, c.gzip, w), evicted, t');
    IsTreated(c, i, t0, t, t');
  }

  lemma InsertKeeps(c: Plan, t0: Tables, s: State, i: nat, s': State)
    requires PlanOk(c) && Next(c, s, Insert(i), s') && Sound(s.db) && FileInv(c, i, t0, s)
    ensures FileInv(c, i, t0, s')
  {
    hide SameRows, Sound, Settled, Upserted, UploadOf, BlobFor, Treated, BlobsOf, PlanOk;
    if c.ws[i].commitOk {
      var evicted :| Uploaded(c, i, s, evicted, s');
      InsertTreats(c, i, t0, s.db, evicted, s'.db);
    }
  }

  lemma OwnFileKeeps(c: Plan, t0: Tables, s: State, act: Action, s': State)
    requires PlanOk(c) && Next(c, s, act, s') && Sound(s.db) && FileInv(c, act.i, t0, s)
    ensures FileInv(c, act.i, t0, s')
  {
    hide SameRows, Sound, Settled, Treated, Upserted, Retimed;
    match act {
      case Look(i) => LookKeeps(c, t0, s, i, s');
      case Record(i) => RecordKeeps(c, t0, s, i, s');
      case Insert(i) => InsertKeeps(c, t0, s, i, s');
      case _ =>
    }
  }

  lemma NextKeepsInv(c: Plan, t0: Tables, s: State, act: Action, s': State)
    requires PlanOk(c) && Next(c, s, act, s') && Inv(c, t0, s)
    ensures Inv(c, t0, s')
  {
    hide SameRows, Sound, FileInv, Working;
    StepKeepsTables(c, s, act, s');
    OwnFileKeeps(c, t0, s, act, s');
    PhasesStay(c, s, act, s');
    forall i | 0 <= i < |c.files|
      ensures FileInv(c, i, t0, s')
    {
      if i != act.i {
        OthersStay(c, s, act, s', c.files[i].path);
        OtherFileKeeps(c, i, t0, s, s');
      }
    }
    forall path | (forall i | 0 <= i < |c.files| :: c.files[i].path != path)
      ensures SameRows(t0, s'.db, path)
    {
      OthersStay(c, s, act, s', path);
      SameRowsChain(t0, s.db, s'.db, path);
    }
  }

  lemma PhasesStay(c: Plan, s: State, act: Action, s': State)
    requires Next(c, s, act, s')
    ensures |s'.phases| == |s.phases| && forall i | 0 <= i < |s.phases| && i != act.i :: s'.phases[i] == s.phases[i]
  {
    hide Upserted, Retimed, LatestRow;
  }

  lemma {:induction false} RunKeepsInv(c: Plan, ss: seq<State>, acts: seq<Action>, n: nat)
    requires PlanOk(c) && Run(c, ss, acts) && Sound(ss[0].db) && n < |ss|
    ensures Inv(c, ss[0].db, ss[n])
  {
    hide Inv, Next;
    if n == 0 {
      StartIsGood(c, ss[0]);
    } else {
      RunKeepsInv(c, ss, acts, n - 1);
      NextKeepsInv(c, ss[0].db, ss[n - 1], acts[n - 1], ss[n]);
    }
  }

  // ---------- What a whole backup leaves ----------

  /** What a call that ended well makes of its file. */
  lemma TreatedSettles(c: Plan, i: nat, t0: Tables, t: Tables)
    requires i < |c.files| == |c.ws| && Treated(c, i, t0, t) && !c.ws[i].cancelled
    requires Untied(t0, c.files[i].path) && Later(t0, c.files[i].path, c.ws[i].now) && Trusted(t0, c.k, c.files[i])
    ensures Settled(t, c.k, c.files[i]) && (c.ws[i].commitOk ==> !RetimeDue(t, c.files[i]))
  {
    var file, w := c.files[i], c.ws[i];
    var before, after :|
      && SameRows(t0, before, file.path) && SameRows(after, t, file.path)
      && FileStep(c.k, file, w, before, after, false, false);
    hide SameRows, Settled, Untied, Later, Trusted, RetimeDue, RetimedTo;
    SameIsAsGood(t0, before, c.k, file, w.now);
    SameIsAsGood(after, t, c.k, file, w.now);
  }

  /**
    However the calls interleave: when all of them have returned without an error, the latest version
    of every file has the hash of its content, and its modification time where recording it went through.
   */
  lemma BackupSettles(c: Plan, ss: seq<State>, acts: seq<Action>)
    requires PlanOk(c) && Run(c, ss, acts) && Sound(ss[0].db) && Ready(ss[0].db, c.k, c.files, c.ws)
    requires AllReturned(ss[|acts|]) && NoErrors(ss[|acts|]) && NoneCancelled(c.ws)
    ensures var t := ss[|acts|].db;
      && Sound(t) && AllSettled(t, c.k, c.files, |c.files|)
      && (AllCommit(c.ws) ==> NoneDue(t, c.files, |c.files|))
  {
    var t0, s := ss[0].db, ss[|acts|];
    RunKeepsInv(c, ss, acts, |acts|);
    hide Settled, Untied, Later, Trusted, RetimeDue, Treated, Run, Sound, SameRows;
    forall i | 0 <= i < |c.files|
      ensures Settled(s.db, c.k, c.files[i]) && (c.ws[i].commitOk ==> !RetimeDue(s.db, c.files[i]))
    {
      assert FileInv(c, i, t0, s);
      TreatedSettles(c, i, t0, s.db);
    }
  }

  // ---------- A backup of settled files ----------

  /** Every file is settled at the start, and its checks can be made. */
  ghost predicate AllQuiet(c: Plan, t0: Tables) {
    |c.files| == |c.ws| && AllSettled(t0, c.k, c.files, |c.files|) && AllReadable(c.ws)
  }

  /** The call has returned and its update of the modification time, if it came to one, went through. */
  ghost predicate Recorded(c: Plan, s: State, i: int) {
    0 <= i < |c.files| == |c.ws| == |s.phases| && s.phases[i].Returned? && c.ws[i].commitOk
  }

  /** A row's modification time is that of the file whose call recorded it, or the old one. */
  ghost predicate RowTime(c: Plan, t0: Tables, s: State, v: nat)
    requires v in t0.versions && |c.files| == |c.ws|
  {
    && v in s.db.versions
    && (forall i | Recorded(c, s, i) && IsLatestOf(t0, c.files[i].path, v) ::
          s.db.versions[v].mtime == c.files[i].mtime)
    && ((forall i | Recorded(c, s, i) :: !IsLatestOf(t0, c.files[i].path, v)) ==>
          s.db.versions[v].mtime == t0.versions[v].mtime)
  }

  /** Nothing has been uploaded, nothing has failed, and the recorded times are right. */
  ghost predicate Quiet(c: Plan, t0: Tables, objects0: map<BlobId, Bytes>, s: State) {
    && |c.files| == |c.ws| == |s.phases| && s.objects == objects0 && TimesOnly(t0, s.db)
    && (forall i | 0 <= i < |s.phases| :: s.phases[i] in {Todo, Retiming, Returned(false, false)})
    && (forall v | v in t0.versions :: RowTime(c, t0, s, v))
  }

  lemma StartIsQuiet(c: Plan, s: State)
    requires PlanOk(c) && s == Start(c, s.db, s.objects)
    ensures Quiet(c, s.db, s.objects, s)
  {
  }

  lemma QuietPhase(c: Plan, t0: Tables, s: State, i: nat)
    requires Inv(c, t0, s) && AllQuiet(c, t0) && i < |s.phases|
    ensures s.phases[i] in {Todo, Retiming, Returned(false, false)}
  {
    hide Settled, SameRows, Treated, OneLike, Sound;
    assert FileInv(c, i, t0, s) && Settled(t0, c.k, c.files[i]) && CanBeRead(c.ws[i]);
  }

  lemma DistinctIsOneSource(files: seq<SourceFile>)
    requires Distinct(files)
    ensures OneSource(files)
  {
  }

  /** Only the file of this path has this latest row. */
  lemma OwnRowOnly(c: Plan, t0: Tables, i: nat, j: nat, v: nat)
    requires i < |c.files| && j < |c.files| && Distinct(c.files) && PathsUnique(t0)
    requires IsLatestOf(t0, c.files[i].path, v) && IsLatestOf(t0, c.files[j].path, v)
    ensures i == j
  {
    DistinctIsOneSource(c.files);
    OneFileOneRow(t0, c.files, i, j, v);
  }

  /** One more call has returned, or none. */
  ghost predicate OnlyRecorded(c: Plan, s: State, s': State, i: nat) {
    !Recorded(c, s, i) && forall j | j != i :: Recorded(c, s', j) <==> Recorded(c, s, j)
  }

  lemma StepRecords(c: Plan, s: State, act: Action, s': State)
    requires Next(c, s, act, s') && !s.phases[act.i].Returned?
    ensures OnlyRecorded(c, s, s', act.i)
  {
    PhasesStay(c, s, act, s');
    hide Next;
  }

  lemma RowTimeStep(c: Plan, t0: Tables, s: State, s': State, i: nat, v: nat)
    requires |c.files| == |c.ws| && Distinct(c.files) && PathsUnique(t0)
    requires v in t0.versions && RowTime(c, t0, s, v) && OnlyRecorded(c, s, s', i) && v in s'.db.versions
    requires if Recorded(c, s', i) && IsLatestOf(t0, c.files[i].path, v)
             then s'.db.versions[v].mtime == c.files[i].mtime
             else s'.db.versions[v].mtime == s.db.versions[v].mtime
    ensures RowTime(c, t0, s', v)
  {
    if Recorded(c, s', i) && IsLatestOf(t0, c.files[i].path, v) {
      forall j | Recorded(c, s', j) && IsLatestOf(t0, c.files[j].path, v)
        ensures j == i
      {
        OwnRowOnly(c, t0, i, j, v);
      }
    }
    hide Recorded, IsLatestOf, PathsUnique, Distinct;
  }

  /** A file that looks as it did has the recorded time already. */
  lemma SkippedTime(t0: Tables, t: Tables, k: Setup, file: SourceFile, row: VersionRow, v: nat)
    requires PathsUnique(t0) && TimesOnly(t0, t) && Settled(t0, k, file) && LatestRow(t, file.path, Some(row))
    requires SameStat(row, file) && IsLatestOf(t0, file.path, v)
    ensures v in t.versions && t.versions[v].mtime == file.mtime
  {
    var u :| IsLatestOf(t, file.path, u) && t.versions[u] == row;
    TimesKeepLatest(t0, t, file.path, u);
    TimesKeepLatest(t0, t, file.path, v);
    hide IsLatestOf, TimesOnly;
  }

  lemma LookFinds(c: Plan, s: State, i: nat, s': State) returns (row: Option<VersionRow>)
    requires Next(c, s, Look(i), s')
    ensures LatestRow(s.db, c.files[i].path, row)
    ensures s' == s.(phases := s.phases[i := AfterLook(c.k, c.files[i], c.ws[i], row)])
  {
    row :| LatestRow(s.db, c.files[i].path, row)
      && s' == s.(phases := s.phases[i := AfterLook(c.k, c.files[i], c.ws[i], row)]);
  }

  lemma ReturnedIsAlike(k: Setup, file: SourceFile, w: Weather, row: Option<VersionRow>)
    requires CanBeRead(w) && AfterLook(k, file, w, row) == Returned(false, false)
    ensures row.Some? && SameStat(row.value, file)
  {
  }

  /** After a look at a settled file, each row's time is as recorded. */
  lemma LookKeepsTimes(c: Plan, t0: Tables, s: State, i: nat, s': State, row: Option<VersionRow>, v: nat)
    requires i < |c.files| == |c.ws| == |s.phases| && Distinct(c.files) && PathsUnique(t0) && TimesOnly(t0, s.db)
    requires CanBeRead(c.ws[i]) && Settled(t0, c.k, c.files[i]) && LatestRow(s.db, c.files[i].path, row)
    requires s' == s.(phases := s.phases[i := AfterLook(c.k, c.files[i], c.ws[i], row)])
    requires s'.phases[i] in {Todo, Retiming, Returned(false, false)} && OnlyRecorded(c, s, s', i)
    requires v in t0.versions && RowTime(c, t0, s, v)
    ensures RowTime(c, t0, s', v)
  {
    hide LatestRow, Settled, IsLatestOf, TimesOnly, OnlyRecorded, SameStat, PathsUnique, Distinct, AfterLook, CanBeRead;
    if s'.phases[i].Returned? && IsLatestOf(t0, c.files[i].path, v) {
      ReturnedIsAlike(c.k, c.files[i], c.ws[i], row);
      SkippedTime(t0, s.db, c.k, c.files[i], row.value, v);
    }
    RowTimeStep(c, t0, s, s', i, v);
  }

  /** What a step leaves quiet: the phase of its own call, the store, and the times. */
  lemma StaysQuietIf(c: Plan, t0: Tables, objects0: map<BlobId, Bytes>, s: State, act: Action, s': State)
    requires Quiet(c, t0, objects0, s) && Next(c, s, act, s') && act.i < |s'.phases|
    requires s'.phases[act.i] in {Todo, Retiming, Returned(false, false)}
    requires s'.objects == s.objects && TimesOnly(t0, s'.db) && forall v | v in t0.versions :: RowTime(c, t0, s', v)
    ensures Quiet(c, t0, objects0, s')
  {
    PhasesStay(c, s, act, s');
    hide Next, TimesOnly, RowTime;
  }

  lemma QuietLook(c: Plan, t0: Tables, objects0: map<BlobId, Bytes>, s: State, i: nat, s': State)
    requires PlanOk(c) && Quiet(c, t0, objects0, s) && AllQuiet(c, t0) && Next(c, s, Look(i), s')
    ensures i < |c.files| == |c.ws| == |s.phases| && Distinct(c.files) && TimesOnly(t0, s.db)
    ensures CanBeRead(c.ws[i]) && Settled(t0, c.k, c.files[i])
    ensures s'.db == s.db && s'.objects == s.objects && OnlyRecorded(c, s, s', i)
    ensures forall v | v in t0.versions :: RowTime(c, t0, s, v)
  {
    hide RowTime, TimesOnly, CanBeRead, Settled, LatestRow, OnlyRecorded;
    StepRecords(c, s, Look(i), s');
  }

  lemma LookStaysQuiet(c: Plan, t0: Tables, objects0: map<BlobId, Bytes>, s: State, i: nat, s': State)
    requires PlanOk(c) && Quiet(c, t0, objects0, s) && AllQuiet(c, t0) && PathsUnique(t0)
    requires Next(c, s, Look(i), s') && i < |s'.phases| && s'.phases[i] in {Todo, Retiming, Returned(false, false)}
    ensures Quiet(c, t0, objects0, s')
  {
    hide *;
    QuietLook(c, t0, objects0, s, i, s');
    var row := LookFinds(c, s, i, s');
    forall v | v in t0.versions
      ensures RowTime(c, t0, s', v)
    {
      LookKeepsTimes(c, t0, s, i, s', row, v);
    }
    StaysQuietIf(c, t0, objects0, s, Look(i), s');
  }

  lemma RecordStaysQuiet(c: Plan, t0: Tables, objects0: map<BlobId, Bytes>, s: State, i: nat, s': State)
    requires PlanOk(c) && Quiet(c, t0, objects0, s) && PathsUnique(t0)
    requires Next(c, s, Record(i), s') && s'.db == if c.ws[i].commitOk then RetimedTo(s.db, c.files[i]) else s.db
    ensures Quiet(c, t0, objects0, s')
  {
    RetimedToTimes(s.db, c.files[i]);
    assert s'.phases[i] == Returned(false, false) && s'.objects == s.objects;
    StepRecords(c, s, Record(i), s');
    PhasesStay(c, s, Record(i), s');
    hide RetimedTo, IsLatestOf, OnlyRecorded, Next, PathsUnique, Working, TimesOnly;
    TimesStay(s.db);
    TimesChain(t0, s.db, s'.db);
    TimesKeys(t0, s'.db);
    forall v | v in t0.versions
      ensures RowTime(c, t0, s', v)
    {
      assert RowTime(c, t0, s, v);
      TimesKeepLatest(t0, s.db, c.files[i].path, v);
      RowTimeStep(c, t0, s, s', i, v);
    }
    hide RowTime;
  }

  lemma TimesStay(t: Tables)
    ensures TimesOnly(t, t)
  {
  }

  lemma TimesKeys(t: Tables, t': Tables)
    requires TimesOnly(t, t')
    ensures t'.versions.Keys == t.versions.Keys
  {
  }

  lemma RecordIsRetimed(c: Plan, t0: Tables, s: State, i: nat, s': State)
    requires PlanOk(c) && Inv(c, t0, s) && AllQuiet(c, t0) && Next(c, s, Record(i), s')
    ensures s'.db == if c.ws[i].commitOk then RetimedTo(s.db, c.files[i]) else s.db
  {
    var file, w := c.files[i], c.ws[i];
    assert FileInv(c, i, t0, s) && Settled(t0, c.k, file);
    SameIsAsGood(t0, s.db, c.k, file, w.now);
    SettledIsUntied(s.db, c.k, file);
    if w.commitOk {
      SoundFileHasRows(s.db, file.path);
      RetimedIs(s.db, file, s'.db);
    }
  }

  lemma SoundFileHasRows(t: Tables, path: string)
    requires Sound(t)
    ensures FilesAt(t, path) != {} ==> VersionsOf(t, TargetFile(t, path)) != {}
  {
  }

  lemma NoOtherStep(c: Plan, s: State, act: Action, s': State)
    requires Next(c, s, act, s') && s.phases[act.i] in {Todo, Retiming, Returned(false, false)}
    ensures act == Look(act.i) || act == Record(act.i)
  {
    hide Upserted, Retimed;
  }

  lemma NextStaysQuiet(c: Plan, t0: Tables, objects0: map<BlobId, Bytes>, s: State, act: Action, s': State)
    requires PlanOk(c) && Inv(c, t0, s) && AllQuiet(c, t0) && PathsUnique(t0) && Quiet(c, t0, objects0, s)
    requires Next(c, s, act, s')
    ensures Quiet(c, t0, objects0, s')
  {
    assert act.i < |s.phases| && s.phases[act.i] in {Todo, Retiming, Returned(false, false)};
    PhasesStay(c, s, act, s');
    NoOtherStep(c, s, act, s');
    hide Quiet, Inv, PlanOk, AllQuiet, PathsUnique, Next;
    NextKeepsInv(c, t0, s, act, s');
    QuietPhase(c, t0, s', act.i);
    if act.Look? {
      LookStaysQuiet(c, t0, objects0, s, act.i, s');
    } else {
      RecordIsRetimed(c, t0, s, act.i, s');
      RecordStaysQuiet(c, t0, objects0, s, act.i, s');
    }
  }

  lemma {:induction false} QuietRun(c: Plan, ss: seq<State>, acts: seq<Action>, n: nat)
    requires PlanOk(c) && Run(c, ss, acts) && Sound(ss[0].db) && AllQuiet(c, ss[0].db) && n < |ss|
    ensures Quiet(c, ss[0].db, ss[0].objects, ss[n])
  {
    hide Inv, Quiet, AllQuiet, Next;
    if n == 0 {
      StartIsQuiet(c, ss[0]);
    } else {
      QuietRun(c, ss, acts, n - 1);
      RunKeepsInv(c, ss, acts, n - 1);
      SoundIsUnique(ss[0].db);
      NextStaysQuiet(c, ss[0].db, ss[0].objects, ss[n - 1], acts[n - 1], ss[n]);
    }
  }

  lemma SameTime(c: Plan, t0: Tables, s: State, t: Tables, v: nat)
    requires |c.files| == |c.ws| == |s.phases| && AllReturned(s) && v in t0.versions
    requires RowTime(c, t0, s, v) && TimeOfRow(t0, t, c.files, c.ws, |c.files|, v)
    ensures v in t.versions && s.db.versions[v].mtime == t.versions[v].mtime
  {
    hide IsLatestOf;
    assert forall j | 0 <= j < |c.files| && c.ws[j].commitOk :: Recorded(c, s, j);
  }

  lemma SameTimesSameTables(t0: Tables, t: Tables, t': Tables)
    requires TimesOnly(t0, t) && TimesOnly(t0, t')
    requires forall v | v in t0.versions ::
      v in t.versions && v in t'.versions && t.versions[v].mtime == t'.versions[v].mtime
    ensures t == t'
  {
    assert t.versions == t'.versions;
  }

  /** When all calls have returned, the tables are what one file after the other leaves. */
  lemma QuietEnd(c: Plan, t0: Tables, objects0: map<BlobId, Bytes>, s: State)
    requires PlanOk(c) && Quiet(c, t0, objects0, s) && AllReturned(s) && PathsUnique(t0)
    ensures s.db == AfterRetimes(t0, c.files, c.ws, |c.files|)
  {
    hide AfterRetimes, Working, RowTime, TimeOfRow, TimesOnly, PathsUnique, AllReturned;
    var t := AfterRetimes(t0, c.files, c.ws, |c.files|);
    DistinctIsOneSource(c.files);
    TimesAfterRun(t0, c.files, c.ws, |c.files|);
    RetimesAreTimes(t0, c.files, c.ws, |c.files|);
    TimesKeys(t0, s.db);
    forall v | v in t0.versions
      ensures v in s.db.versions && v in t.versions && s.db.versions[v].mtime == t.versions[v].mtime
    {
      SameTime(c, t0, s, t, v);
    }
    SameTimesSameTables(t0, s.db, t);
  }

  /**
    Two backups of an unchanged source, each in any interleaving. After a first one without errors the
    second uploads nothing, fails nowhere and leaves the remote store alone at every moment. Where it has
    ended it has changed a row exactly when recording a file's new time had failed before and went through now.
   */
  lemma SecondBackup(c: Plan, ss: seq<State>, acts: seq<Action>, c': Plan, ss': seq<State>, acts': seq<Action>, n: nat)
    requires PlanOk(c) && Run(c, ss, acts) && Sound(ss[0].db) && Ready(ss[0].db, c.k, c.files, c.ws)
    requires AllReturned(ss[|acts|]) && NoErrors(ss[|acts|]) && NoneCancelled(c.ws)
    requires PlanOk(c') && c'.files == c.files && c'.k == c.k && AllReadable(c'.ws)
    requires Run(c', ss', acts') && ss'[0].db == ss[|acts|].db && n < |ss'|
    ensures AllSettled(ss'[n].db, c.k, c.files, |c.files|)
    ensures ss'[n].objects == ss'[0].objects
    ensures forall i | 0 <= i < |ss'[n].phases| :: ss'[n].phases[i] in {Todo, Retiming, Returned(false, false)}
    ensures AllReturned(ss'[n]) ==>
      && (ss'[n].db != ss'[0].db <==>
            exists j :: 0 <= j < |c.files| && c'.ws[j].commitOk && RetimeDue(ss'[0].db, c.files[j]))
      && (AllCommit(c.ws) ==> ss'[n].db == ss'[0].db)
  {
    var t := ss'[0].db;
    BackupSettles(c, ss, acts);
    QuietRun(c', ss', acts', n);
    SoundIsUnique(t);
    StillSettled(c', t, ss'[0].objects, ss'[n]);
    if AllReturned(ss'[n]) {
      QuietEnd(c', t, ss'[0].objects, ss'[n]);
      DistinctIsOneSource(c.files);
      RetimesChangeIff(t, c.files, c'.ws);
      NothingDue(t, c.files, c'.ws);
    }
    hide Run, PlanOk, Sound, Ready, AllReadable, NoneCancelled;
    hide NoErrors, AllSettled, NoneDue, AllCommit, RetimeDue, PathsUnique;
  }

  lemma StillSettled(c: Plan, t0: Tables, objects0: map<BlobId, Bytes>, s: State)
    requires Quiet(c, t0, objects0, s) && PathsUnique(t0) && AllSettled(t0, c.k, c.files, |c.files|)
    ensures AllSettled(s.db, c.k, c.files, |c.files|)
  {
    hide TimesOnly, Settled, RowTime;
    forall i | 0 <= i < |c.files|
      ensures Settled(s.db, c.k, c.files[i])
    {
      TimesKeepSettled(t0, s.db, c.k, c.files[i]);
    }
  }

  // ---------- One call alone ----------

  ghost predicate Steps(c: Plan, ss: seq<State>, acts: seq<Action>) {
    |ss| == |acts| + 1 && forall n | 0 <= n < |acts| :: Next(c, ss[n], acts[n], ss[n + 1])
  }

  lemma SomeRow(t: Tables, path: string) returns (row: Option<VersionRow>)
    requires Sound(t)
    ensures LatestRow(t, path, row)
  {
    if FilesAt(t, path) == {} {
      row := None;
    } else {
      SoundFileHasRows(t, path);
      var v := LatestExists(t, TargetFile(t, path));
      assert IsLatestOf(t, path, v);
      row := Some(t.versions[v]);
    }
  }

  lemma FoundRow(t: Tables, path: string, v: Option<nat>) returns (row: Option<VersionRow>)
    requires v.None? ==> FilesAt(t, path) == {}
    requires v.Some? ==> FilesAt(t, path) != {} && IsLatest(t, TargetFile(t, path), v.value)
    ensures v.Some? ==> v.value in t.versions
    ensures row == (if v.Some? then Some(t.versions[v.value]) else None) && LatestRow(t, path, row)
  {
    row := None;
    if v.Some? {
      assert IsLatestOf(t, path, v.value);
      row := Some(t.versions[v.value]);
    }
  }

  /** The call has ended in this phase, with these tables and objects. */
  function Ended(s: State, i: nat, phase: Phase, db: Tables, objects: map<BlobId, Bytes>): State
    requires i < |s.phases|
  {
    State(db, objects, s.phases[i := phase])
  }

  lemma LookRun(c: Plan, s: State, i: nat, row: Option<VersionRow>) returns (ss: seq<State>, acts: seq<Action>)
    requires i < |c.files| == |c.ws| == |s.phases| && s.phases[i].Todo? && LatestRow(s.db, c.files[i].path, row)
    ensures Steps(c, ss, acts) && ss[0] == s && acts == [Look(i)]
    ensures ss[1] == Ended(s, i, AfterLook(c.k, c.files[i], c.ws[i], row), s.db, s.objects)
  {
    var s1 := Ended(s, i, AfterLook(c.k, c.files[i], c.ws[i], row), s.db, s.objects);
    hide LatestRow;
    assert Next(c, s, Look(i), s1);
    ss, acts := [s, s1], [Look(i)];
  }

  lemma RecordRun(c: Plan, s: State, i: nat, db: Tables) returns (ss: seq<State>, acts: seq<Action>)
    requires i < |c.files| == |c.ws| == |s.phases| && s.phases[i].Retiming?
    requires if c.ws[i].commitOk then Retimed(s.db, c.files[i].path, c.files[i].mtime, db) else db == s.db
    ensures Steps(c, ss, acts) && ss[0] == s && acts == [Record(i)]
    ensures ss[1] == Ended(s, i, Returned(false, false), db, s.objects)
  {
    var s1 := Ended(s, i, Returned(false, false), db, s.objects);
    hide Retimed;
    assert Next(c, s, Record(i), s1);
    ss, acts := [s, s1], [Record(i)];
  }

  lemma TransferRun(c: Plan, s: State, i: nat, objects: map<BlobId, Bytes>) returns (ss: seq<State>, acts: seq<Action>)
    requires i < |c.files| == |c.ws| == |s.phases| && s.phases[i].Sending?
    requires objects - {c.ws[i].blob} == s.objects - {c.ws[i].blob}
    requires AfterTransfer(c, c.ws[i]).Sent? ==> objects == s.objects[c.ws[i].blob := BlobFor(c.k, c.gzip, c.ws[i])]
    ensures Steps(c, ss, acts) && ss[0] == s && acts == [Transfer(i)]
    ensures ss[1] == Ended(s, i, AfterTransfer(c, c.ws[i]), s.db, objects)
  {
    var s1 := Ended(s, i, AfterTransfer(c, c.ws[i]), s.db, objects);
    hide AfterTransfer, BlobFor;
    assert Next(c, s, Transfer(i), s1);
    ss, acts := [s, s1], [Transfer(i)];
  }

  lemma FailedInsertRun(c: Plan, s: State, i: nat) returns (ss: seq<State>, acts: seq<Action>)
    requires i < |c.files| == |c.ws| == |s.phases| && s.phases[i].Sent? && !c.ws[i].commitOk
    ensures Steps(c, ss, acts) && ss[0] == s && acts == [Insert(i)]
    ensures ss[1] == Ended(s, i, Returned(false, true), s.db, s.objects)
  {
    var s1 := Ended(s, i, Returned(false, true), s.db, s.objects);
    assert Next(c, s, Insert(i), s1);
    ss, acts := [s, s1], [Insert(i)];
  }

  lemma InsertRun(c: Plan, s: State, i: nat, evicted: Option<nat>, db: Tables, objects: map<BlobId, Bytes>)
    returns (ss: seq<State>, acts: seq<Action>)
    requires i < |c.files| == |c.ws| == |s.phases| && s.phases[i].Sent? && c.ws[i].commitOk
    requires Upserted(s.db, UploadOf(c.k, c.files[i], c.ws[i], BlobFor(c.k, c.gzip, c.ws[i])), evicted, db)
    requires evicted.Some? ==> evicted.value in s.db.versions
    requires objects == s.objects
      - (if evicted.Some? && c.ws[i].deleteOk then {s.db.versions[evicted.value].blob} else {})
    ensures Steps(c, ss, acts) && ss[0] == s && acts == [Insert(i), Evict(i)]
    ensures ss[2] == Ended(s, i, Returned(true, false), db, objects)
  {
    var s1 := Ended(s, i, Displacing(BlobsOf(s.db, evicted)), db, s.objects);
    var s2 := Ended(s, i, Returned(true, false), db, objects);
    hide Upserted, BlobFor;
    assert Uploaded(c, i, s, evicted, s1);
    assert Next(c, s, Insert(i), s1);
    assert s1.phases[i := Returned(true, false)] == s2.phases;
    assert Next(c, s1, Evict(i), s2);
    ss, acts := [s, s1, s2], [Insert(i), Evict(i)];
  }

  lemma JoinRuns(c: Plan, ss: seq<State>, acts: seq<Action>, more: seq<State>, moreActs: seq<Action>)
    requires Steps(c, ss, acts) && Steps(c, more, moreActs) && more[0] == ss[|acts|]
    ensures Steps(c, ss + more[1..], acts + moreActs)
    ensures (ss + more[1..])[|acts + moreActs|] == more[|moreActs|] && (ss + more[1..])[0] == ss[0]
  {
    hide Next;
    var all, steps := ss + more[1..], acts + moreActs;
    forall n | 0 <= n < |steps|
      ensures Next(c, all[n], steps[n], all[n + 1])
    {
      if n < |acts| {
        assert all[n] == ss[n] && all[n + 1] == ss[n + 1];
      } else {
        assert all[n] == more[n - |acts|] && all[n + 1] == more[n - |acts| + 1];
      }
    }
  }

  /** What a call answers and leaves that gets as far as its upload. */
  ghost predicate SendingAnswer(c: Plan, s: State, i: nat, evicted: Option<nat>, s': State,
                                n: nat, hadErr: bool, stuck: bool)
    requires i < |c.files| == |c.ws|
  {
    var w, blob := c.ws[i], BlobFor(c.k, c.gzip, c.ws[i]);
    if AfterTransfer(c, w).Sent? then
      && !stuck && (n == 1 <==> w.commitOk) && (hadErr <==> !w.commitOk)
      && (evicted.Some? ==> evicted.value in s.db.versions)
      && (if w.commitOk then
            && Upserted(s.db, UploadOf(c.k, c.files[i], w, blob), evicted, s'.db)
            && s'.objects == s.objects[w.blob := blob]
                 - (if evicted.Some? && w.deleteOk then {s.db.versions[evicted.value].blob} else {})
          else s'.db == s.db && s'.objects == s.objects[w.blob := blob])
    else
      && n == 0 && s'.db == s.db && s'.objects - {w.blob} == s.objects - {w.blob}
      && (stuck <==> AfterTransfer(c, w).Hanging?) && (hadErr <==> !stuck)
  }

  /** What a call that has found this row answers and leaves. */
  ghost predicate Answer(c: Plan, s: State, i: nat, row: Option<VersionRow>, evicted: Option<nat>, s': State,
                         n: nat, hadErr: bool, stuck: bool)
    requires i < |c.files| == |c.ws|
  {
    match AfterLook(c.k, c.files[i], c.ws[i], row)
    case Returned(_, errored) => n == 0 && hadErr == errored && !stuck && s'.db == s.db && s'.objects == s.objects
    case Retiming =>
      && n == 0 && !hadErr && !stuck && s'.objects == s.objects
      && (if c.ws[i].commitOk then Retimed(s.db, c.files[i].path, c.files[i].mtime, s'.db) else s'.db == s.db)
    case Sending => SendingAnswer(c, s, i, evicted, s', n, hadErr, stuck)
    case _ => false
  }

  /** Where a call that was not begun has ended. */
  ghost predicate CallEnds(s: State, i: nat, s': State, n: nat, hadErr: bool, stuck: bool) {
    i < |s.phases| && s'.phases == s.phases[i := if stuck then Hanging else Returned(n == 1, hadErr)]
  }

  lemma SendingRun(c: Plan, s: State, i: nat, evicted: Option<nat>, s': State, n: nat, hadErr: bool, stuck: bool)
    returns (ss: seq<State>, acts: seq<Action>)
    requires i < |c.files| == |c.ws| == |s.phases| && s.phases[i].Sending? && CallEnds(s, i, s', n, hadErr, stuck)
    requires SendingAnswer(c, s, i, evicted, s', n, hadErr, stuck)
    ensures Steps(c, ss, acts) && ss[0] == s && ss[|acts|] == s' && forall j | 0 <= j < |acts| :: acts[j].i == i
  {
    var w := c.ws[i];
    hide Upserted, BlobFor, AfterTransfer, Next;
    if AfterTransfer(c, w).Sent? {
      var sent := s.objects[w.blob := BlobFor(c.k, c.gzip, w)];
      assert sent - {w.blob} == s.objects - {w.blob};
      ss, acts := TransferRun(c, s, i, sent);
      var more, moreActs;
      if w.commitOk {
        more, moreActs := InsertRun(c, ss[1], i, evicted, s'.db, s'.objects);
      } else {
        more, moreActs := FailedInsertRun(c, ss[1], i);
      }
      JoinRuns(c, ss, acts, more, moreActs);
      ss, acts := ss + more[1..], acts + moreActs;
    } else {
      ss, acts := TransferRun(c, s, i, s'.objects);
    }
  }

  lemma AnswerIsRun(c: Plan, s: State, i: nat, row: Option<VersionRow>, evicted: Option<nat>, s': State,
                    n: nat, hadErr: bool, stuck: bool)
    returns (ss: seq<State>, acts: seq<Action>)
    requires i < |c.files| == |c.ws| == |s.phases| && s.phases[i].Todo? && LatestRow(s.db, c.files[i].path, row)
    requires Answer(c, s, i, row, evicted, s', n, hadErr, stuck) && CallEnds(s, i, s', n, hadErr, stuck)
    ensures Steps(c, ss, acts) && ss[0] == s && ss[|acts|] == s' && forall j | 0 <= j < |acts| :: acts[j].i == i
  {
    hide SendingAnswer, Next, LatestRow, Retimed, AfterLook;
    ss, acts := LookRun(c, s, i, row);
    var phase := AfterLook(c.k, c.files[i], c.ws[i], row);
    if phase.Retiming? {
      var more, moreActs := RecordRun(c, ss[1], i, s'.db);
      JoinRuns(c, ss, acts, more, moreActs);
      ss, acts := ss + more[1..], acts + moreActs;
    } else if phase.Sending? {
      SameAnswer(c, s, ss[1], i, evicted, s', n, hadErr, stuck);
      var more, moreActs := SendingRun(c, ss[1], i, evicted, s', n, hadErr, stuck);
      JoinRuns(c, ss, acts, more, moreActs);
      ss, acts := ss + more[1..], acts + moreActs;
    } else {
      LookReturns(c.k, c.files[i], c.ws[i], row);
    }
  }

  lemma LookReturns(k: Setup, file: SourceFile, w: Weather, row: Option<VersionRow>)
    ensures var phase := AfterLook(k, file, w, row);
      phase.Retiming? || phase.Sending? || (phase.Returned? && !phase.uploaded)
  {
  }

  lemma SameAnswer(c: Plan, s: State, t: State, i: nat, evicted: Option<nat>, s': State, n: nat, hadErr: bool,
                   stuck: bool)
    requires i < |c.files| == |c.ws| && t.db == s.db && t.objects == s.objects
    requires SendingAnswer(c, s, i, evicted, s', n, hadErr, stuck)
    ensures SendingAnswer(c, t, i, evicted, s', n, hadErr, stuck)
  {
  }

  /** The contract of processFile, read as an answer. */
  lemma ContractIsAnswer(c: Plan, s: State, i: nat, row: Option<VersionRow>, evicted: Option<nat>, s': State,
                         n: nat, hadErr: bool, stuck: bool)
    requires i < |c.files| == |c.ws| && c.ws[i].blob !in s.objects && n <= 1 && !(stuck && hadErr)
    requires var w := c.ws[i];
      && (w.cancelled ==> n == 0 && !hadErr && !stuck)
      && (!w.cancelled && (!w.statOk || !w.infoOk) ==> hadErr && s'.objects == s.objects)
    requires var file, w := c.files[i], c.ws[i];
      !w.cancelled && w.statOk && w.infoOk ==>
        if row.Some? && SameStat(row.value, file) then n == 0 && !hadErr && !stuck
        else if !w.hashOk then hadErr && s'.objects == s.objects
        else if row.Some? && row.value.hash == c.k.sha(file.content) then n == 0 && !hadErr && !stuck
        else if !w.openOk then hadErr && s'.objects == s.objects
        else if CallStalls(c.k, c.gzip, w) then stuck
        else if !TransferOk(c.k, c.gzip, w) then hadErr
        else
          && w.blob in s'.objects && s'.objects[w.blob] == BlobFor(c.k, c.gzip, w)
          && if w.commitOk then n == 1 else hadErr
    requires n == 0 && !hadErr && !stuck ==>
      && s'.objects == s.objects
      && (if row.Some? && !c.ws[i].cancelled && !SameStat(row.value, c.files[i]) && c.ws[i].commitOk
          then Retimed(s.db, c.files[i].path, c.files[i].mtime, s'.db) else s'.db == s.db)
    requires hadErr || stuck ==> n == 0 && s'.db == s.db && s'.objects - {c.ws[i].blob} == s.objects
    requires n == 1 ==>
      && !hadErr && !stuck && c.ws[i].blob in s'.objects
      && Upserted(s.db, UploadOf(c.k, c.files[i], c.ws[i], s'.objects[c.ws[i].blob]), evicted, s'.db)
      && (evicted.Some? ==> evicted.value in s.db.versions)
      && s'.objects == s.objects[c.ws[i].blob := s'.objects[c.ws[i].blob]]
           - (if evicted.Some? && c.ws[i].deleteOk then {s.db.versions[evicted.value].blob} else {})
    ensures Answer(c, s, i, row, if n == 1 then evicted else None, s', n, hadErr, stuck)
  {
    hide Upserted, Retimed, BlobFor, CallStalls, TransferOk, SameStat;
    SentObjects(s.objects, s'.objects, c.ws[i].blob);
    match AfterLook(c.k, c.files[i], c.ws[i], row) {
      case Returned(_, errored) =>
      case Retiming =>
      case Sending =>
        assert SendingAnswer(c, s, i, if n == 1 then evicted else None, s', n, hadErr, stuck);
    }
  }

  /** One call of processFile, while nothing else moves, is a run of these steps for its file. */
  method ProcessFileIsRun(agent: Agent, file: SourceFile, w: Weather, ghost c: Plan, ghost s: State, i: nat)
    returns (n: nat, hadErr: bool, stuck: bool, ghost ss: seq<State>, ghost acts: seq<Action>)
    requires PlanOk(c) && i < |c.files| == |s.phases| && file == c.files[i] && w == c.ws[i] && s.phases[i].Todo?
    requires agent.k == c.k && agent.gzip == c.gzip && s.db == agent.db.State() && s.objects == agent.remote.objects
    requires Sound(s.db) && w.blob !in s.objects && w.blob !in Referenced(s.db)
    modifies agent.db, agent.remote
    ensures Steps(c, ss, acts) && ss[0] == s && forall j | 0 <= j < |acts| :: acts[j].i == i
    ensures var e := ss[|acts|];
      && e.db == agent.db.State() && e.objects == agent.remote.objects
      && CallEnds(s, i, e, n, hadErr, stuck)
  {
    hide Upserted, BlobFor, CallStalls, TransferOk, Steps, Retimed, Sound, Referenced, IsLatest, TargetFile, FilesAt;
    hide DataOf, Good, LatestRow, Working, Distinct;
    var bytes;
    ghost var latest, evicted;
    n, bytes, hadErr, stuck, latest, evicted := agent.ProcessFile(file, w);
    ghost var row;
    if w.cancelled || !w.statOk || !w.infoOk {
      row := SomeRow(s.db, file.path);
    } else {
      row := FoundRow(s.db, file.path, latest);
    }
    ghost var s' := State(agent.db.State(), agent.remote.objects,
                          s.phases[i := if stuck then Hanging else Returned(n == 1, hadErr)]);
    if n == 1 {
      EvictedIsThere(s.db, evicted, s'.db, UploadOf(c.k, file, w, s'.objects[w.blob]));
    }
    ContractIsAnswer(c, s, i, row, evicted, s', n, hadErr, stuck);
    ss, acts := AnswerIsRun(c, s, i, row, if n == 1 then evicted else None, s', n, hadErr, stuck);
  }

  lemma SentObjects(before: map<BlobId, Bytes>, after: map<BlobId, Bytes>, blob: BlobId)
    requires blob !in before
    ensures before - {blob} == before
    ensures blob in after && after - {blob} == before ==> after == before[blob := after[blob]]
  {
  }

  lemma EvictedIsThere(t: Tables, evicted: Option<nat>, t': Tables, u: Upload)
    requires Upserted(t, u, evicted, t')
    ensures evicted.Some? ==> evicted.value in t.versions
  {
    EvictedIsReferenced(t, u, evicted, t');
  }

  // ---------- The calls that never return ----------

  /** The checks of this file lead to an upload, whatever latest row they look at. */
  ghost predicate Reaches(c: Plan, i: nat, t0: Tables)
    requires i < |c.files| == |c.ws|
  {
    var file, w := c.files[i], c.ws[i];
    && !w.cancelled && w.statOk && w.infoOk && w.hashOk && w.openOk
    && forall v | IsLatestOf(t0, file.path, v) ::
         !SameStat(t0.versions[v], file) && t0.versions[v].hash != c.k.sha(file.content)
  }

  ghost predicate Hangs(c: Plan, i: nat, t0: Tables)
    requires i < |c.files| == |c.ws|
  {
    Reaches(c, i, t0) && CallStalls(c.k, c.gzip, c.ws[i])
  }

  ghost predicate PhaseTells(c: Plan, i: nat, t0: Tables, phase: Phase)
    requires i < |c.files| == |c.ws|
  {
    match phase
    case Todo => true
    case Retiming => !Reaches(c, i, t0)
    case Sending => Reaches(c, i, t0)
    case Hanging => Hangs(c, i, t0)
    case Sent => !Hangs(c, i, t0)
    case Displacing(_) => !Hangs(c, i, t0)
    case Returned(_, _) => !Hangs(c, i, t0)
  }

  lemma LookTells(c: Plan, i: nat, t0: Tables, t: Tables, row: Option<VersionRow>)
    requires i < |c.files| == |c.ws| && SameRows(t0, t, c.files[i].path) && Untied(t0, c.files[i].path)
    requires LatestRow(t, c.files[i].path, row)
    ensures PhaseTells(c, i, t0, AfterLook(c.k, c.files[i], c.ws[i], row))
  {
    var file := c.files[i];
    hide CallStalls, SameStat;
    if row.Some? {
      var v :| IsLatestOf(t, file.path, v) && t.versions[v] == row.value;
      LatestIsSame(t0, t, file.path, v);
      hide SameRows, IsLatestOf;
      assert forall u | IsLatestOf(t0, file.path, u) :: u == v;
    } else {
      assert forall v :: !IsLatestOf(t0, file.path, v);
      hide SameRows, IsLatestOf;
    }
  }

  lemma StepTells(c: Plan, t0: Tables, s: State, act: Action, s': State)
    requires PlanOk(c) && Inv(c, t0, s) && Next(c, s, act, s') && Untied(t0, c.files[act.i].path)
    requires PhaseTells(c, act.i, t0, s.phases[act.i])
    ensures PhaseTells(c, act.i, t0, s'.phases[act.i])
  {
    assert FileInv(c, act.i, t0, s);
    hide Reaches, CallStalls, TransferOk, SameRows, Untied, Sound, Settled, Treated, LatestRow, Upserted, Retimed;
    if act.Look? {
      var row := LookFinds(c, s, act.i, s');
      LookTells(c, act.i, t0, s.db, row);
    }
  }

  /** A call hangs in some run, or returns in some run, only if it does in all of them: the start decides. */
  lemma {:induction false} StartDecides(c: Plan, ss: seq<State>, acts: seq<Action>, n: nat, i: nat)
    requires PlanOk(c) && Run(c, ss, acts) && Sound(ss[0].db) && n < |ss| && i < |c.files| == |ss[n].phases|
    requires Untied(ss[0].db, c.files[i].path)
    ensures PhaseTells(c, i, ss[0].db, ss[n].phases[i])
  {
    hide Inv, PhaseTells, Next, Untied, Working;
    if n == 0 {
      TodoTells(c, i, ss[0].db);
    } else {
      var act := acts[n - 1];
      RunKeepsInv(c, ss, acts, n - 1);
      assert Next(c, ss[n - 1], act, ss[n]);
      PhasesStay(c, ss[n - 1], act, ss[n]);
      StartDecides(c, ss, acts, n - 1, i);
      if act.i == i {
        StepTells(c, ss[0].db, ss[n - 1], act, ss[n]);
      }
    }
  }

  lemma TodoTells(c: Plan, i: nat, t0: Tables)
    requires i < |c.files| == |c.ws|
    ensures PhaseTells(c, i, t0, Todo)
  {
  }

  /** The items of the worker pool whose call never returns. */
  ghost function HangSet(c: Plan, t0: Tables): set<nat>
    requires |c.files| == |c.ws|
  {
    set i: nat | i < |c.files| && Hangs(c, i, t0)
  }

  /** The link gives out before the last frame of a compressed stream. */
  ghost predicate BreaksEarly(c: Plan, w: Weather) {
    var packed := Packed(c.gzip, DataOf(w.read), EndOf(w.read));
    w.compress && packed != [] && LinkRoom(w) < 8 + FramesSize(LastChunk(|packed|))
  }

  /**
    The pool of workers over these files, not cancelled and with a connection: the backup is over exactly
    when no file gets as far as a compressed upload whose link gives out before the last frame.
   */
  lemma BackupIsOverIff(c: Plan, t0: Tables, p: WorkerPool.Setting, ss: seq<WorkerPool.Pool>,
                        acts: seq<WorkerPool.Action>)
    requires |c.files| == |c.ws| && Lawful(c.k.aead) && p.items == |c.files| && p.hangs == HangSet(c, t0)
    requires p.capacity > 0 && WorkerPool.Run(p, ss, acts) && WorkerPool.Blocked(p, ss[|acts|])
    requires WorkerPool.SomeConnected(ss[|acts|]) && !ss[|acts|].cancelled
    ensures WorkerPool.Over(ss[|acts|]) <==> forall i | 0 <= i < |c.files| ::
      !(Reaches(c, i, t0) && BreaksEarly(c, c.ws[i]))
  {
    WorkerPool.RunIsOverIff(p, ss, acts);
    hide Reaches, WorkerPool.Over, WorkerPool.Run, WorkerPool.Blocked, WorkerPool.SomeConnected;
    forall i | 0 <= i < |c.files|
      ensures i in p.hangs <==> Reaches(c, i, t0) && BreaksEarly(c, c.ws[i])
    {
      var w := c.ws[i];
      StallsIff(c.k.aead, w.nonces, Packed(c.gzip, DataOf(w.read), EndOf(w.read)), LinkRoom(w));
    }
    assert forall i | i in p.hangs :: i < p.items;
  }
}
