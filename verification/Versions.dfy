/** What whole histories of transactions do to the versions of one file. */
module Versions {
  import opened Basics
  import opened Database

  /** Any sequence of the mutating transactions, from the empty database, under any clock. */
  ghost predicate Run(ts: seq<Tables>, ops: seq<Op>) {
    && |ts| == |ops| + 1
    && ts[0] == EMPTY
    && forall i | 0 <= i < |ops| :: Step(ts[i], ops[i], ts[i + 1])
  }

  lemma {:induction false} RunIsSound(ts: seq<Tables>, ops: seq<Op>, k: nat)
    requires Run(ts, ops) && k < |ts|
    ensures Sound(ts[k])
  {
    if k > 0 {
      RunIsSound(ts, ops, k - 1);
      StepKeepsSound(ts[k - 1], ops[k - 1], ts[k]);
    }
  }

  // ---------- Version numbers ----------

  ghost predicate HasNumber(t: Tables, f: nat, n: int) {
    exists v :: v in t.versions && t.versions[v].file == f && t.versions[v].number == n
  }

  /** Some version of the file bore this number in one of the states up to k. */
  ghost predicate Given(ts: seq<Tables>, k: nat, f: nat, n: int)
    requires k < |ts|
  {
    exists j | 0 <= j <= k :: HasNumber(ts[j], f, n)
  }

  lemma HasNumberRow(t: Tables, f: nat, n: int)
    ensures HasNumber(t, f, n) <==> exists v :: v in VersionsOf(t, f) && t.versions[v].number == n
  {
  }

  lemma NextExceedsPresent(t: Tables, f: nat, n: int)
    requires HasNumber(t, f, n)
    ensures n < NextNumber(t, f)
  {
    HasNumberRow(t, f, n);
    NextNumberIsLarger(t, f);
  }

  /** The newest version of a file is deleted while it has others. */
  ghost predicate DeletesTop(t: Tables, op: Op, f: nat) {
    op.DeleteVersion? && op.f == f && op.number == NextNumber(t, f) - 1 && |VersionsOf(t, f)| > 1
  }

  /** Nothing but that lowers the next number of a file that stays. */
  lemma NextNumberGrows(t: Tables, op: Op, t': Tables, f: nat)
    requires Sound(t) && Step(t, op, t') && f in t.files && f in t'.files && !DeletesTop(t, op, f)
    ensures NextNumber(t, f) <= NextNumber(t', f)
  {
    hide NextNumber, NumbersUnique, PathsUnique;
    assert VersionsOf(t, f) != {};
    match op {
      case Upsert(u) =>
        var evicted :| Upserted(t, u, evicted, t');
        UpsertGrows(t, u, evicted, t', f);
      case DeleteVersion(g, number) =>
        if g == f {
          DeleteGrows(t, f, number);
        } else {
          DeleteVersionRows(t, g, number, f);
          SameNumbers(t, t', f);
        }
      case _ =>
        assert VersionsOf(t', f) == VersionsOf(t, f);
        SameNumbers(t, t', f);
    }
  }

  lemma DeleteGrows(t: Tables, f: nat, number: int)
    requires Sound(t) && f in t.files && f in VersionDeleted(t, f, number).files
    requires !(number == NextNumber(t, f) - 1 && |VersionsOf(t, f)| > 1)
    ensures NextNumber(t, f) <= NextNumber(VersionDeleted(t, f, number), f)
  {
    hide NextNumber;
    var t' := VersionDeleted(t, f, number);
    NextNumberIsLarger(t, f);
    NextNumberIsLarger(t', f);
    DeleteVersionRows(t, f, number, f);
    var top :| top in VersionsOf(t, f) && NextNumber(t, f) == t.versions[top].number + 1;
    var left :| left in VersionsOf(t', f);
    TwoRows(t, f, left, top);
    assert number != t.versions[top].number;
    assert top in VersionsOf(t', f);
  }

  lemma TwoRows(t: Tables, f: nat, v: nat, w: nat)
    requires v in VersionsOf(t, f) && w in VersionsOf(t, f)
    ensures v != w ==> |VersionsOf(t, f)| > 1
  {
    SubsetIsSmaller({v, w}, VersionsOf(t, f));
  }

  lemma UpsertGrows(t: Tables, u: Upload, evicted: Option<nat>, t': Tables, f: nat)
    requires Sound(t) && Upserted(t, u, evicted, t') && VersionsOf(t, f) != {}
    ensures NextNumber(t, f) <= NextNumber(t', f)
  {
    hide NextNumber, TargetFile, IsOldest;
    UpsertRows(t, u, evicted, t');
    if TargetFile(t, u.source) == f {
      NextNumberIsLarger(t', f);
      assert t.nextVersion in VersionsOf(t', f);
    } else {
      SameNumbers(t, t', f);
    }
  }

  lemma SameNumbers(t: Tables, t': Tables, f: nat)
    requires VersionsOf(t', f) == VersionsOf(t, f) != {}
    requires forall v | v in VersionsOf(t, f) :: t'.versions[v].number == t.versions[v].number
    ensures NextNumber(t, f) <= NextNumber(t', f)
  {
  }

  lemma {:induction false} GivenIdsAreUsedUp(ts: seq<Tables>, ops: seq<Op>, k: nat, f: nat, n: int)
    requires Run(ts, ops) && k < |ts| && Given(ts, k, f, n)
    ensures f < ts[k].nextFile
  {
    RunIsSound(ts, ops, k);
    if HasNumber(ts[k], f, n) {
      HasNumberRow(ts[k], f, n);
    } else {
      var j :| 0 <= j <= k && HasNumber(ts[j], f, n);
      assert j <= k - 1;
      GivenIdsAreUsedUp(ts, ops, k - 1, f, n);
      assert Step(ts[k - 1], ops[k - 1], ts[k]);
    }
  }

  /** The next number of the file, if it is there, exceeds all the numbers it was ever given. */
  ghost predicate NextIsNew(ts: seq<Tables>, k: nat, f: nat)
    requires k < |ts|
  {
    f in ts[k].files ==> forall n | Given(ts, k, f, n) :: n < NextNumber(ts[k], f)
  }

  /**
    As long as the newest of several versions is not deleted, every number a file is given exceeds all
    the numbers it was ever given: under any clock, whichever rows are evicted, and with older
    versions deleted at will.
   */
  lemma {:induction false} NumbersOnlyGrow(ts: seq<Tables>, ops: seq<Op>, k: nat, f: nat, n: int)
    requires Run(ts, ops) && k < |ts| && f in ts[k].files
    requires forall i | 0 <= i < k :: !DeletesTop(ts[i], ops[i], f)
    requires Given(ts, k, f, n)
    ensures n < NextNumber(ts[k], f)
  {
    hide DeletesTop, NextNumber, Step, Sound, HasNumber;
    if HasNumber(ts[k], f, n) {
      NextExceedsPresent(ts[k], f, n);
    } else {
      var j :| 0 <= j <= k && HasNumber(ts[j], f, n);
      assert Given(ts, k - 1, f, n);
      RunIsSound(ts, ops, k - 1);
      assert Step(ts[k - 1], ops[k - 1], ts[k]);
      if f in ts[k - 1].files {
        NumbersOnlyGrow(ts, ops, k - 1, f, n);
        NextNumberGrows(ts[k - 1], ops[k - 1], ts[k], f);
      } else {
        GivenIdsAreUsedUp(ts, ops, k - 1, f, n);
        NewFilesAreNew(ts[k - 1], ops[k - 1], ts[k], f);
      }
    }
  }

  /** A top number that is deleted was given, and the next one does not exceed it. */
  lemma DeletingTopLowers(ts: seq<Tables>, ops: seq<Op>, i: nat, f: nat)
    requires Run(ts, ops) && i < |ops| && DeletesTop(ts[i], ops[i], f)
    ensures f in ts[i + 1].files
    ensures Given(ts, i + 1, f, ops[i].number) && 1 <= NextNumber(ts[i + 1], f) <= ops[i].number
  {
    var t, n := ts[i], ops[i].number;
    RunIsSound(ts, ops, i);
    assert Step(t, ops[i], ts[i + 1]);
    NextNumberIsLarger(t, f);
    var top :| top in VersionsOf(t, f) && NextNumber(t, f) == t.versions[top].number + 1;
    DeletingTheNewestReusesItsNumber(t, f, top);
    NextIsPositive(ts[i + 1], f);
    HasNumberRow(t, f, n);
    assert HasNumber(ts[i], f, n);
    SomeStay(t, f, n);
  }

  lemma NextIsPositive(t: Tables, f: nat)
    requires VersionsHaveFiles(t)
    ensures NextNumber(t, f) >= 1
  {
    NextNumberIsLarger(t, f);
  }

  /** The file keeps its other versions. */
  lemma SomeStay(t: Tables, f: nat, number: int)
    requires Sound(t) && |VersionsOf(t, f)| > 1
    ensures f in VersionDeleted(t, f, number).files
  {
    var v :| v in VersionsOf(t, f);
    var others := VersionsOf(t, f) - {v};
    assert |others| == |VersionsOf(t, f)| - 1;
    var w :| w in others;
    var kept := if t.versions[v].number == number then w else v;
    assert kept in VersionDeleted(t, f, number).versions;
  }

  /**
    In any run: each next number of the file was new exactly when its newest version was never deleted
    beside others.
   */
  lemma NumbersGrowIff(ts: seq<Tables>, ops: seq<Op>, k: nat, f: nat)
    requires Run(ts, ops) && k < |ts|
    ensures (forall i | 0 <= i <= k :: NextIsNew(ts, i, f))
      <==> (forall i | 0 <= i < k :: !DeletesTop(ts[i], ops[i], f))
  {
    if forall i | 0 <= i < k :: !DeletesTop(ts[i], ops[i], f) {
      forall i, n | 0 <= i <= k && f in ts[i].files && Given(ts, i, f, n)
        ensures n < NextNumber(ts[i], f)
      {
        NumbersOnlyGrow(ts, ops, i, f, n);
      }
    }
    if i :| 0 <= i < k && DeletesTop(ts[i], ops[i], f) {
      DeletingTopLowers(ts, ops, i, f);
      assert !NextIsNew(ts, i + 1, f);
    }
  }

  /** The numbers a file was ever given have no gaps below them. */
  lemma {:induction false} GivenHaveNoGaps(ts: seq<Tables>, ops: seq<Op>, k: nat, f: nat, m: int, n: int)
    requires Run(ts, ops) && k < |ts| && Given(ts, k, f, n) && 1 <= m <= n
    ensures Given(ts, k, f, m)
    decreases k
  {
    hide NextNumber;
    if m < n {
      if k > 0 && Given(ts, k - 1, f, n) {
        GivenHaveNoGaps(ts, ops, k - 1, f, m, n);
        GivenStays(ts, k - 1, f, m);
      } else {
        assert HasNumber(ts[k], f, n);
        assert k > 0;
        RunIsSound(ts, ops, k - 1);
        assert Step(ts[k - 1], ops[k - 1], ts[k]);
        NumberIsOldOrNext(ts[k - 1], ops[k - 1], ts[k], f, n);
        assert Given(ts, k - 1, f, n - 1);
        GivenHaveNoGaps(ts, ops, k - 1, f, m, n - 1);
        GivenStays(ts, k - 1, f, m);
      }
    }
  }

  lemma GivenStays(ts: seq<Tables>, k: nat, f: nat, n: int)
    requires k + 1 < |ts| && Given(ts, k, f, n)
    ensures Given(ts, k + 1, f, n)
  {
  }

  /** A number of the file is an old one, or the next: then the one below it is there before, or it is 1. */
  lemma NumberIsOldOrNext(t: Tables, op: Op, t': Tables, f: nat, n: int)
    requires Sound(t) && Step(t, op, t') && HasNumber(t', f, n)
    ensures HasNumber(t, f, n) || (n >= 1 && (n > 1 ==> HasNumber(t, f, n - 1)))
  {
    hide NextNumber, NumbersUnique, PathsUnique, TargetFile, IsOldest;
    match op {
      case Upsert(u) =>
        var evicted :| Upserted(t, u, evicted, t');
        var v :| v in t'.versions && t'.versions[v].file == f && t'.versions[v].number == n;
        RowIsOldOrNext(t, u, evicted, t', v);
      case _ =>
        hide FilesHaveVersions, VersionsHaveFiles, IsLatest;
        var v :| v in t'.versions && t'.versions[v].file == f && t'.versions[v].number == n;
        assert v in t.versions && t.versions[v].file == f && t.versions[v].number == n;
    }
  }

  lemma RowIsOldOrNext(t: Tables, u: Upload, evicted: Option<nat>, t': Tables, v: nat)
    requires Sound(t) && Upserted(t, u, evicted, t') && v in t'.versions
    ensures var f, n := t'.versions[v].file, t'.versions[v].number;
      HasNumber(t, f, n) || (n >= 1 && (n > 1 ==> HasNumber(t, f, n - 1)))
  {
    hide NextNumber, TargetFile, IsOldest;
    if v != t.nextVersion {
      assert v in t.versions && t.versions[v] == t'.versions[v];
    } else {
      var f := TargetFile(t, u.source);
      assert t'.versions[v].file == f && t'.versions[v].number == NextNumber(t, f);
      NextIsPositive(t, f);
      NextNumberIsLarger(t, f);
      if VersionsOf(t, f) != {} {
        var top :| top in VersionsOf(t, f) && NextNumber(t, f) == t.versions[top].number + 1;
        assert top in t.versions;
      }
    }
  }

  /** The next number was given before exactly when it does not exceed all that were. */
  lemma NextWasGivenIff(ts: seq<Tables>, ops: seq<Op>, k: nat, f: nat)
    requires Run(ts, ops) && k < |ts| && f in ts[k].files
    ensures Given(ts, k, f, NextNumber(ts[k], f)) <==> !NextIsNew(ts, k, f)
  {
    RunIsSound(ts, ops, k);
    NextIsPositive(ts[k], f);
    if n :| Given(ts, k, f, n) && n >= NextNumber(ts[k], f) {
      GivenHaveNoGaps(ts, ops, k, f, NextNumber(ts[k], f), n);
    }
  }

  /** What deleting the newest version beside others hands out next has been given before. */
  lemma DeletingTopReuses(ts: seq<Tables>, ops: seq<Op>, i: nat, f: nat)
    requires Run(ts, ops) && i < |ops| && DeletesTop(ts[i], ops[i], f)
    ensures f in ts[i + 1].files && Given(ts, i + 1, f, NextNumber(ts[i + 1], f))
  {
    DeletingTopLowers(ts, ops, i, f);
    NextWasGivenIff(ts, ops, i + 1, f);
  }

  lemma NewFilesAreNew(t: Tables, op: Op, t': Tables, f: nat)
    requires Sound(t) && Step(t, op, t') && f !in t.files && f in t'.files
    ensures f == t.nextFile
  {
  }

  /** Deleting the newest of several versions gives its number out again, or a lower one. */
  lemma DeletingTheNewestReusesItsNumber(t: Tables, f: nat, v: nat)
    requires Sound(t) && IsTopNumber(t, f, v) && |VersionsOf(t, f)| > 1
    ensures NextNumber(VersionDeleted(t, f, t.versions[v].number), f) <= t.versions[v].number
  {
  }

  // ---------- The last three uploads ----------

  function UploadsTo(ops: seq<Op>, source: string): seq<Upload> {
    if ops == [] then []
    else
      var last := ops[|ops| - 1];
      UploadsTo(ops[..|ops| - 1], source) + if last.Upsert? && last.u.source == source then [last.u] else []
  }

  /** The clock of a file's uploads strictly increases. */
  ghost predicate Ticking(us: seq<Upload>) {
    forall i, j | 0 <= i < j < |us| :: us[i].at < us[j].at
  }

  /** The step removes no version of the file by itself. */
  ghost predicate Spares(t: Tables, op: Op, source: string) {
    && (op.DeleteVersion? ==> op.f !in FilesAt(t, source))
    && (op.RemoveFiles? ==> op.ids !! FilesAt(t, source))
  }

  ghost predicate Increasing(ids: seq<nat>) {
    forall i, j | 0 <= i < j < |ids| :: ids[i] < ids[j]
  }

  /** The rows ids hold the last |ids| of these uploads, each numbered as it was made. */
  ghost predicate AllMatch(t: Tables, us: seq<Upload>, ids: seq<nat>) {
    && |ids| <= |us|
    && forall i | 0 <= i < |ids| :: Matches(t, ids[i], us[|us| - |ids| + i], |us| - |ids| + i + 1)
  }

  /** Rows ids, in this order, are the rows of the file and hold the last three of these uploads. */
  ghost predicate Holds(t: Tables, source: string, us: seq<Upload>, ids: seq<nat>) {
    && |ids| == (if |us| < 3 then |us| else 3)
    && (us == [] <==> FilesAt(t, source) == {})
    && (us != [] ==> VersionsOf(t, TargetFile(t, source)) == Members(ids))
    && Increasing(ids)
    && AllMatch(t, us, ids)
  }

  function Members(ids: seq<nat>): set<nat> {
    set v | v in ids
  }

  ghost predicate Matches(t: Tables, v: nat, u: Upload, number: int) {
    && v in t.versions
    && t.versions[v].blob == u.blob && t.versions[v].hash == u.hash
    && t.versions[v].encryptedAt == u.at && t.versions[v].number == number
  }

  /** A step that is no upload of this file leaves its rows what they are. */
  lemma HoldsThroughOthers(t: Tables, op: Op, t': Tables, source: string, us: seq<Upload>, ids: seq<nat>)
    requires Sound(t) && Step(t, op, t') && Spares(t, op, source) && Holds(t, source, us, ids)
    requires !(op.Upsert? && op.u.source == source)
    ensures Holds(t', source, us, ids)
  {
    var f := TargetFile(t, source);
    StepKeepsSound(t, op, t');
    TargetIsUnique(t, source);
    TargetIsUnique(t', source);
    OthersKeepFile(t, op, t', source);
    if us != [] {
      OthersKeepRows(t, op, t', source);
      forall i | 0 <= i < |ids|
        ensures Matches(t', ids[i], us[|us| - |ids| + i], |us| - |ids| + i + 1)
      {
        assert ids[i] in VersionsOf(t, f);
        assert Matches(t, ids[i], us[|us| - |ids| + i], |us| - |ids| + i + 1);
      }
    }
  }

  lemma OthersKeepFile(t: Tables, op: Op, t': Tables, source: string)
    requires Sound(t) && Step(t, op, t') && Spares(t, op, source)
    requires !(op.Upsert? && op.u.source == source)
    ensures FilesAt(t', source) == FilesAt(t, source)
  {
    hide FilesHaveVersions, VersionsHaveFiles, NumbersUnique, NextNumber, IsLatest, VersionsOf;
    assert t.nextFile !in t.files by {
      FoundOrNew(t, source, None);
    }
    match op {
      case Upsert(u) =>
        TargetIsUnique(t, u.source);
      case DeleteVersion(f, number) =>
        assert t'.files == t.files || t'.files == t.files - {f};
      case _ =>
    }
  }

  lemma OthersKeepRows(t: Tables, op: Op, t': Tables, source: string)
    requires Sound(t) && Step(t, op, t') && Spares(t, op, source) && FilesAt(t, source) != {}
    requires !(op.Upsert? && op.u.source == source)
    ensures var f := TargetFile(t, source);
      && VersionsOf(t', f) == VersionsOf(t, f)
      && forall v | v in VersionsOf(t, f) :: t'.versions[v] == t.versions[v].(mtime := t'.versions[v].mtime)
  {
    var f := TargetFile(t, source);
    assert f in FilesAt(t, source);
    hide FilesHaveVersions, NumbersUnique, NextNumber, TargetFile, IsOldest, Upserted;
    match op {
      case Upsert(u) =>
        var evicted :| Upserted(t, u, evicted, t');
        TargetIsUnique(t, u.source);
        OtherUploadKeepsRows(t, u, evicted, t', f);
      case DeleteVersion(g, number) =>
        DeleteVersionRows(t, g, number, f);
      case _ =>
        OtherStepKeepsRows(t, op, t', f);
    }
  }

  lemma OtherStepKeepsRows(t: Tables, op: Op, t': Tables, f: nat)
    requires Step(t, op, t') && !op.Upsert? && !op.DeleteVersion? && (op.RemoveFiles? ==> f !in op.ids)
    ensures VersionsOf(t', f) == VersionsOf(t, f)
    ensures forall v | v in VersionsOf(t, f) :: t'.versions[v] == t.versions[v].(mtime := t'.versions[v].mtime)
  {
    hide TargetFile, FilesAt;
  }

  lemma OtherUploadKeepsRows(t: Tables, u: Upload, evicted: Option<nat>, t': Tables, f: nat)
    requires Sound(t) && Upserted(t, u, evicted, t') && f != TargetFile(t, u.source)
    ensures VersionsOf(t', f) == VersionsOf(t, f)
    ensures forall v | v in VersionsOf(t, f) :: t'.versions[v] == t.versions[v]
  {
    hide FilesHaveVersions, NumbersUnique, PathsUnique, NextNumber, TargetFile, IsOldest;
    UpsertRows(t, u, evicted, t');
  }

  /** The rows that stay when an upload comes. */
  function Kept(ids: seq<nat>): seq<nat> {
    if |ids| < 3 then ids else ids[1..]
  }

  /** An upload drops the oldest of three rows and adds one to the end. */
  lemma HoldsThroughUpload(t: Tables, u: Upload, evicted: Option<nat>, t': Tables, us: seq<Upload>, ids: seq<nat>)
    requires Sound(t) && Upserted(t, u, evicted, t') && Holds(t, u.source, us, ids) && Ticking(us + [u])
    ensures Holds(t', u.source, us + [u], Kept(ids) + [t.nextVersion])
  {
    UploadTarget(t, u, evicted, t');
    NextIsLength(t, u.source, us, ids);
    UploadEvicts(t, u, evicted, t', us, ids);
    UploadRows(t, u, evicted, t', us, ids);
    UploadMatches(t, u, evicted, t', us, ids);
  }

  lemma UploadEvicts(t: Tables, u: Upload, evicted: Option<nat>, t': Tables, us: seq<Upload>, ids: seq<nat>)
    requires Sound(t) && Upserted(t, u, evicted, t') && Holds(t, u.source, us, ids) && Ticking(us + [u])
    ensures evicted == if |ids| < 3 then None else Some(ids[0])
  {
    hide NextNumber, TargetFile, IsOldest, Sound, AllMatch, Increasing;
    RowCount(t, u.source, us, ids);
    if |ids| == 3 {
      assert Ticking(us) by {
        assert forall i | 0 <= i < |us| :: us[i] == (us + [u])[i];
      }
      OldestIsFirst(t, u.source, us, ids, evicted.value);
    }
  }

  lemma UploadRows(t: Tables, u: Upload, evicted: Option<nat>, t': Tables, us: seq<Upload>, ids: seq<nat>)
    requires Sound(t) && Upserted(t, u, evicted, t') && Holds(t, u.source, us, ids)
    requires evicted == if |ids| < 3 then None else Some(ids[0])
    ensures VersionsOf(t', TargetFile(t, u.source)) == Members(Kept(ids) + [t.nextVersion])
    ensures Increasing(Kept(ids) + [t.nextVersion])
  {
    hide NextNumber, TargetFile, IsOldest, FilesHaveVersions, NumbersUnique, PathsUnique, AllMatch;
    var f := TargetFile(t, u.source);
    UpsertRows(t, u, evicted, t');
    assert VersionsOf(t, f) == Members(ids) by {
      RowCount(t, u.source, us, ids);
    }
    forall i | 0 <= i < |ids|
      ensures ids[i] < t.nextVersion
    {
      assert ids[i] in Members(ids);
    }
    ShiftWindow(ids, t.nextVersion);
  }

  lemma ShiftWindow(ids: seq<nat>, next: nat)
    requires Increasing(ids) && forall i | 0 <= i < |ids| :: ids[i] < next
    ensures Increasing(Kept(ids) + [next])
    ensures Members(Kept(ids) + [next]) == Members(ids) - (if |ids| < 3 then {} else {ids[0]}) + {next}
  {
  }

  lemma UploadMatches(t: Tables, u: Upload, evicted: Option<nat>, t': Tables, us: seq<Upload>, ids: seq<nat>)
    requires Sound(t) && Upserted(t, u, evicted, t') && Holds(t, u.source, us, ids)
    requires NextNumber(t, TargetFile(t, u.source)) == |us| + 1
    requires evicted == if |ids| < 3 then None else Some(ids[0])
    ensures AllMatch(t', us + [u], Kept(ids) + [t.nextVersion])
  {
    hide NextNumber, TargetFile, IsOldest, FilesHaveVersions, NumbersUnique, PathsUnique, VersionsOf;
    var kept := Kept(ids);
    forall i | 0 <= i < |kept|
      ensures Matches(t', kept[i], us[|us| - |kept| + i], |us| - |kept| + i + 1)
    {
      var j := if |ids| < 3 then i else i + 1;
      assert Matches(t, ids[j], us[|us| - |ids| + j], |us| - |ids| + j + 1);
    }
    assert Matches(t', t.nextVersion, u, |us| + 1);
  }

  lemma UploadTarget(t: Tables, u: Upload, evicted: Option<nat>, t': Tables)
    requires Sound(t) && Upserted(t, u, evicted, t')
    ensures FilesAt(t', u.source) != {} && TargetFile(t', u.source) == TargetFile(t, u.source)
  {
    hide NextNumber;
    var f := TargetFile(t, u.source);
    UpsertPaths(t, u, evicted, t');
    TargetIsUnique(t', u.source);
    assert f in FilesAt(t', u.source);
  }

  /** The rows number what the list of ids says. */
  lemma RowCount(t: Tables, source: string, us: seq<Upload>, ids: seq<nat>)
    requires Sound(t) && Holds(t, source, us, ids)
    ensures |VersionsOf(t, TargetFile(t, source))| == |ids|
    ensures VersionsOf(t, TargetFile(t, source)) == Members(ids)
  {
    if us == [] {
      assert TargetFile(t, source) == t.nextFile;
      assert VersionsOf(t, t.nextFile) == {};
    } else {
      Distinct(ids);
    }
  }

  lemma {:induction false} Distinct(ids: seq<nat>)
    requires Increasing(ids)
    ensures |Members(ids)| == |ids|
  {
    if ids != [] {
      var front, last := ids[..|ids| - 1], ids[|ids| - 1];
      assert forall i, j | 0 <= i < j < |front| :: ids[i] < ids[j];
      Distinct(front);
      assert forall v | v in front :: v < last;
      assert ids == front + [last];
      assert Members(ids) == Members(front) + {last};
      assert last !in Members(front);
    }
  }

  lemma OldestIsFirst(t: Tables, source: string, us: seq<Upload>, ids: seq<nat>, oldest: nat)
    requires Holds(t, source, us, ids) && Ticking(us) && us != [] && IsOldest(t, TargetFile(t, source), oldest)
    ensures oldest == ids[0]
  {
  }

  lemma NextIsLength(t: Tables, source: string, us: seq<Upload>, ids: seq<nat>)
    requires Sound(t) && Holds(t, source, us, ids)
    ensures NextNumber(t, TargetFile(t, source)) == |us| + 1
  {
    var f := TargetFile(t, source);
    NextNumberIsLarger(t, f);
    RowCount(t, source, us, ids);
    if us != [] {
      var last := |ids| - 1;
      assert Matches(t, ids[last], us[|us| - 1], |us|);
      assert ids[last] in VersionsOf(t, f);
      var v :| v in VersionsOf(t, f) && NextNumber(t, f) == t.versions[v].number + 1;
      var i :| 0 <= i < |ids| && ids[i] == v;
      assert Matches(t, ids[i], us[|us| - |ids| + i], |us| - |ids| + i + 1);
    }
  }

  /**
    When the clock moves between the uploads of a file and nothing deletes its versions, the file's
    rows are exactly its last three uploads, and the order by row id is that by number and by time.
   */
  lemma {:induction false} TheLastThreeRemain(ts: seq<Tables>, ops: seq<Op>, source: string) returns (ids: seq<nat>)
    requires Run(ts, ops)
    requires forall i | 0 <= i < |ops| :: Spares(ts[i], ops[i], source)
    requires Ticking(UploadsTo(ops, source))
    ensures Holds(ts[|ops|], source, UploadsTo(ops, source), ids)
    decreases |ops|
  {
    if ops == [] {
      ids := [];
    } else {
      var k := |ops| - 1;
      var us := UploadsTo(ops[..k], source);
      FrontOfRun(ts, ops, source);
      ids := TheLastThreeRemain(ts[..|ops|], ops[..k], source);
      RunIsSound(ts, ops, k);
      assert Step(ts[k], ops[k], ts[|ops|]);
      ids := HoldsThroughStep(ts[k], ops[k], ts[|ops|], source, us, ids);
    }
  }

  lemma FrontOfRun(ts: seq<Tables>, ops: seq<Op>, source: string)
    requires Run(ts, ops) && ops != []
    requires Ticking(UploadsTo(ops, source))
    ensures Run(ts[..|ops|], ops[..|ops| - 1])
    ensures Ticking(UploadsTo(ops[..|ops| - 1], source))
  {
    var us, all := UploadsTo(ops[..|ops| - 1], source), UploadsTo(ops, source);
    assert forall i | 0 <= i < |us| :: us[i] == all[i];
  }

  lemma HoldsThroughStep(t: Tables, op: Op, t': Tables, source: string, us: seq<Upload>, ids: seq<nat>)
    returns (ids': seq<nat>)
    requires Sound(t) && Step(t, op, t') && Spares(t, op, source) && Holds(t, source, us, ids)
    requires op.Upsert? && op.u.source == source ==> Ticking(us + [op.u])
    ensures Holds(t', source, us + if op.Upsert? && op.u.source == source then [op.u] else [], ids')
  {
    hide Holds, Sound, Upserted;
    if op.Upsert? && op.u.source == source {
      var evicted :| Upserted(t, op.u, evicted, t');
      HoldsThroughUpload(t, op.u, evicted, t', us, ids);
      ids' := Kept(ids) + [t.nextVersion];
    } else {
      HoldsThroughOthers(t, op, t', source, us, ids);
      assert us + [] == us;
      ids' := ids;
    }
  }

  // ---------- The queries for "the latest version" ----------

  lemma RowsInOrder(t: Tables, source: string, us: seq<Upload>, ids: seq<nat>, w: nat)
    requires Holds(t, source, us, ids) && Ticking(us) && us != [] && w in VersionsOf(t, TargetFile(t, source))
    ensures w in t.versions && ids[0] in t.versions && ids[|ids| - 1] in t.versions
    ensures w != ids[|ids| - 1] ==>
      && w < ids[|ids| - 1]
      && t.versions[w].encryptedAt < t.versions[ids[|ids| - 1]].encryptedAt
      && t.versions[w].number < t.versions[ids[|ids| - 1]].number
    ensures w != ids[0] ==> t.versions[ids[0]].encryptedAt < t.versions[w].encryptedAt
  {
  }

  /** While the clock ticks, every such query, and the largest number and id, name the same row. */
  lemma TickingQueriesAgree(t: Tables, source: string, us: seq<Upload>, ids: seq<nat>, v: nat)
    requires Holds(t, source, us, ids) && Ticking(us) && us != []
    ensures var f := TargetFile(t, source);
      && (IsLatest(t, f, v) <==> v == ids[|ids| - 1])
      && (IsLatestForScan(t, f, v) <==> v == ids[|ids| - 1])
      && (IsTopNumber(t, f, v) <==> v == ids[|ids| - 1])
      && (IsOldest(t, f, v) <==> v == ids[0])
  {
    var f := TargetFile(t, source);
    assert ids[0] in Members(ids) && ids[|ids| - 1] in Members(ids);
    assert VersionsOf(t, f) == Members(ids);
    hide Holds, VersionsOf, Members, TargetFile, Ticking;
    forall w | w in VersionsOf(t, f)
      ensures w in t.versions && ids[0] in t.versions && ids[|ids| - 1] in t.versions
      ensures w != ids[|ids| - 1] ==>
        && w < ids[|ids| - 1]
        && t.versions[w].encryptedAt < t.versions[ids[|ids| - 1]].encryptedAt
        && t.versions[w].number < t.versions[ids[|ids| - 1]].number
      ensures w != ids[0] ==> t.versions[ids[0]].encryptedAt < t.versions[w].encryptedAt
    {
      RowsInOrder(t, source, us, ids, w);
    }
  }

  /** Under any clock: the queries can disagree exactly when the greatest encryption time is shared. */
  lemma QueriesAgreeIffNoTie(t: Tables, f: nat, scan: nat)
    requires IsLatestForScan(t, f, scan)
    ensures IsLatest(t, f, scan)
    ensures (forall v :: IsLatest(t, f, v) ==> v == scan)
       <==> (forall v, w | v in VersionsOf(t, f) && w in VersionsOf(t, f) && IsLatest(t, f, v)
               && t.versions[v].encryptedAt == t.versions[w].encryptedAt :: v == w)
  {
    if forall v :: IsLatest(t, f, v) ==> v == scan {
      forall v, w | v in VersionsOf(t, f) && w in VersionsOf(t, f) && IsLatest(t, f, v)
                 && t.versions[v].encryptedAt == t.versions[w].encryptedAt
        ensures v == w
      {
        assert IsLatest(t, f, w);
      }
    }
  }

  // ---------- Runs of uploads ----------

  lemma UploadGoesThrough(t: Tables, u: Upload) returns (t': Tables)
    requires Sound(t)
    ensures Step(t, Upsert(u), t')
  {
    var f := TargetFile(t, u.source);
    var evicted: Option<nat> := None;
    if |VersionsOf(t, f)| >= MAX_VERSIONS {
      OldestNeedsRows(t, f);
      var v := OldestExists(t, f);
      evicted := Some(v);
    }
    t' := Tables(t.files[f := FileRow(u.source, u.display, None)],
                 Without(t.versions, evicted)[t.nextVersion := RowOf(u, f, NextNumber(t, f))],
                 if f in t.files then t.nextFile else t.nextFile + 1, t.nextVersion + 1);
    assert Upserted(t, u, evicted, t');
  }

  function OpsOf(us: seq<Upload>): seq<Op> {
    seq(|us|, i requires 0 <= i < |us| => Upsert(us[i]))
  }

  /** Any uploads can follow one another from the empty database. */
  lemma {:induction false} UploadsRun(us: seq<Upload>) returns (ts: seq<Tables>)
    ensures Run(ts, OpsOf(us))
  {
    hide Step, Sound;
    if us == [] {
      ts := [EMPTY];
    } else {
      var k := |us| - 1;
      var before := UploadsRun(us[..k]);
      RunIsSound(before, OpsOf(us[..k]), k);
      var t := UploadGoesThrough(before[k], us[k]);
      ts := before + [t];
      forall i | 0 <= i < |us|
        ensures Step(ts[i], OpsOf(us)[i], ts[i + 1])
      {
        if i < k {
          assert Step(before[i], OpsOf(us[..k])[i], before[i + 1]);
        }
      }
    }
  }

  lemma {:induction false} AllAreUploads(us: seq<Upload>, source: string)
    requires forall i | 0 <= i < |us| :: us[i].source == source
    ensures UploadsTo(OpsOf(us), source) == us
  {
    if us != [] {
      var k := |us| - 1;
      assert OpsOf(us)[..k] == OpsOf(us[..k]);
      AllAreUploads(us[..k], source);
      assert us == us[..k] + [us[k]];
    }
  }
}
