/**
  The two tables behind the backups and the transactions that change them. Row ids come from
  AUTOINCREMENT columns and are never used again. A query that orders by a column may return tied
  rows in any order, so every choice among ties is arbitrary here.
 */
module Database {
  import opened Basics
  import opened Utf8

  type BlobId = string

  datatype FileRow = FileRow(source: string, display: string, deletedAt: Option<int>)

  /** encryptedAt is a whole number of seconds: the column holds an RFC 3339 time without a fraction. */
  datatype VersionRow = VersionRow(file: nat, number: int, blob: BlobId, size: int, hash: string,
                                   blobHash: string, mtime: int, encryptedAt: int, job: int)

  datatype Tables = Tables(files: map<nat, FileRow>, versions: map<nat, VersionRow>, nextFile: nat, nextVersion: nat)

  const EMPTY: Tables := Tables(map[], map[], 1, 1)

  const MAX_VERSIONS: nat := 3

  /** The arguments of UpsertFileVersion and the clock reading of its transaction. */
  datatype Upload = Upload(source: string, display: string, blob: BlobId, size: int, hash: string,
                           blobHash: string, mtime: int, job: int, at: int)

  datatype Result<+T> = Success(value: T) | Failure

  // ---------- Queries ----------

  function VersionsOf(t: Tables, f: nat): set<nat> {
    set v | v in t.versions && t.versions[v].file == f
  }

  function FilesAt(t: Tables, source: string): set<nat> {
    set f | f in t.files && t.files[f].source == source
  }

  /** ORDER BY encrypted_at DESC LIMIT 1. */
  ghost predicate IsLatest(t: Tables, f: nat, v: nat) {
    v in VersionsOf(t, f) && forall w | w in VersionsOf(t, f) :: t.versions[w].encryptedAt <= t.versions[v].encryptedAt
  }

  /** ORDER BY encrypted_at ASC LIMIT 1. */
  ghost predicate IsOldest(t: Tables, f: nat, v: nat) {
    v in VersionsOf(t, f) && forall w | w in VersionsOf(t, f) :: t.versions[v].encryptedAt <= t.versions[w].encryptedAt
  }

  /** ORDER BY encrypted_at DESC, id DESC LIMIT 1. */
  ghost predicate IsLatestForScan(t: Tables, f: nat, v: nat) {
    && v in VersionsOf(t, f)
    && forall w | w in VersionsOf(t, f) ::
         || t.versions[w].encryptedAt < t.versions[v].encryptedAt
         || (t.versions[w].encryptedAt == t.versions[v].encryptedAt && w <= v)
  }

  ghost predicate IsTopNumber(t: Tables, f: nat, v: nat) {
    v in VersionsOf(t, f) && forall w | w in VersionsOf(t, f) :: t.versions[w].number <= t.versions[v].number
  }

  /** A nonempty finite set has a member of greatest value. */
  lemma {:induction false} GreatestExists(s: set<nat>, value: nat -> int) returns (g: nat)
    requires s != {}
    ensures g in s && forall w | w in s :: value(w) <= value(g)
    decreases s
  {
    var first :| first in s;
    var rest := s - {first};
    assert forall w | w in s :: w == first || w in rest;
    if rest == {} {
      g := first;
    } else {
      var best := GreatestExists(rest, value);
      g := if value(first) < value(best) then best else first;
    }
  }

  lemma LatestExists(t: Tables, f: nat) returns (v: nat)
    requires VersionsOf(t, f) != {}
    ensures IsLatest(t, f, v)
  {
    v := GreatestExists(VersionsOf(t, f), w => if w in t.versions then t.versions[w].encryptedAt else 0);
  }

  lemma OldestExists(t: Tables, f: nat) returns (v: nat)
    requires VersionsOf(t, f) != {}
    ensures IsOldest(t, f, v)
  {
    v := GreatestExists(VersionsOf(t, f), w => if w in t.versions then -t.versions[w].encryptedAt else 0);
  }

  lemma TopNumberExists(t: Tables, f: nat) returns (v: nat)
    requires VersionsOf(t, f) != {}
    ensures IsTopNumber(t, f, v)
  {
    v := GreatestExists(VersionsOf(t, f), w => if w in t.versions then t.versions[w].number else 0);
  }

  // ---------- The schema's and the code's invariant ----------

  /** Every file has one to three versions. */
  ghost predicate FilesHaveVersions(t: Tables) {
    forall f | f in t.files :: f < t.nextFile && 1 <= |VersionsOf(t, f)| <= MAX_VERSIONS
  }

  /** Every version belongs to a file. */
  ghost predicate VersionsHaveFiles(t: Tables) {
    forall v | v in t.versions :: v < t.nextVersion && t.versions[v].file in t.files && t.versions[v].number >= 1
  }

  ghost predicate PathsUnique(t: Tables) {
    forall f, g | f in t.files && g in t.files && t.files[f].source == t.files[g].source :: f == g
  }

  ghost predicate NumbersUnique(t: Tables) {
    forall v, w | v in t.versions && w in t.versions
      && t.versions[v].file == t.versions[w].file && t.versions[v].number == t.versions[w].number :: v == w
  }

  ghost predicate Sound(t: Tables) {
    FilesHaveVersions(t) && VersionsHaveFiles(t) && PathsUnique(t) && NumbersUnique(t)
  }

  // ---------- What the transactions do ----------

  /** The file row an upload belongs to: the one with its source path, or a new one. */
  ghost function TargetFile(t: Tables, source: string): nat {
    if FilesAt(t, source) == {} then t.nextFile
    else var f :| f in FilesAt(t, source); f
  }

  /** MAX(version_num) + 1, or 1 for a file without versions. */
  ghost function NextNumber(t: Tables, f: nat): int {
    if VersionsOf(t, f) == {} then 1
    else
      assert exists v :: IsTopNumber(t, f, v) by { var v := TopNumberExists(t, f); }
      var v :| IsTopNumber(t, f, v);
      t.versions[v].number + 1
  }

  function RowOf(u: Upload, f: nat, number: int): VersionRow {
    VersionRow(f, number, u.blob, u.size, u.hash, u.blobHash, u.mtime, u.at, u.job)
  }

  function Without(versions: map<nat, VersionRow>, evicted: Option<nat>): map<nat, VersionRow> {
    if evicted.None? then versions else versions - {evicted.value}
  }

  /** UpsertFileVersion: one new row, and one eviction exactly when three rows were there. */
  ghost predicate Upserted(t: Tables, u: Upload, evicted: Option<nat>, t': Tables) {
    var f := TargetFile(t, u.source);
    && (evicted.Some? <==> |VersionsOf(t, f)| >= MAX_VERSIONS)
    && (evicted.Some? ==> IsOldest(t, f, evicted.value))
    && t'.files == t.files[f := FileRow(u.source, u.display, None)]
    && t'.nextFile == (if f in t.files then t.nextFile else t.nextFile + 1)
    && t'.versions == Without(t.versions, evicted)[t.nextVersion := RowOf(u, f, NextNumber(t, f))]
    && t'.nextVersion == t.nextVersion + 1
  }

  /** DeleteFileVersion: the row goes, and its file with it when it was the last one. */
  function VersionDeleted(t: Tables, f: nat, number: int): Tables {
    var left := map v | v in t.versions && !(t.versions[v].file == f && t.versions[v].number == number) ::
      t.versions[v];
    t.(versions := left,
       files := if exists v :: v in left && left[v].file == f then t.files else t.files - {f})
  }

  /** The rows of these files and all their versions go. */
  function FilesRemoved(t: Tables, ids: set<nat>): Tables {
    t.(files := t.files - ids,
       versions := map v | v in t.versions && t.versions[v].file !in ids :: t.versions[v])
  }

  /** MarkFileDeletedIfUnset. */
  function Marked(t: Tables, source: string, at: int): Tables {
    t.(files := map f | f in t.files ::
         if t.files[f].source == source && t.files[f].deletedAt.None? then t.files[f].(deletedAt := Some(at))
         else t.files[f])
  }

  /** ClearFileDeleted. */
  function Cleared(t: Tables, source: string): Tables {
    t.(files := map f | f in t.files ::
         if t.files[f].source == source then t.files[f].(deletedAt := None) else t.files[f])
  }

  /** UpdateLatestVersionMtime, on some latest row of the file if it has one. */
  ghost predicate Retimed(t: Tables, source: string, mtime: int, t': Tables) {
    if FilesAt(t, source) == {} || VersionsOf(t, TargetFile(t, source)) == {} then t' == t
    else exists v :: IsLatest(t, TargetFile(t, source), v)
                  && t' == t.(versions := t.versions[v := t.versions[v].(mtime := mtime)])
  }

  datatype Op =
    | Upsert(u: Upload)
    | DeleteVersion(f: nat, number: int)
    | RemoveFiles(ids: set<nat>)
    | Mark(source: string, at: int)
    | Clear(source: string)
    | Retime(source: string, mtime: int)

  ghost predicate Step(t: Tables, op: Op, t': Tables) {
    match op
    case Upsert(u) => exists evicted :: Upserted(t, u, evicted, t')
    case DeleteVersion(f, number) => t' == VersionDeleted(t, f, number)
    case RemoveFiles(ids) => t' == FilesRemoved(t, ids)
    case Mark(source, at) => t' == Marked(t, source, at)
    case Clear(source) => t' == Cleared(t, source)
    case Retime(source, mtime) => Retimed(t, source, mtime, t')
  }

  // ---------- The invariant is kept ----------

  lemma NextNumberIsLarger(t: Tables, f: nat)
    ensures forall w | w in VersionsOf(t, f) :: t.versions[w].number < NextNumber(t, f)
    ensures VersionsOf(t, f) != {} ==> exists v :: v in VersionsOf(t, f) && NextNumber(t, f) == t.versions[v].number + 1
    ensures VersionsOf(t, f) == {} ==> NextNumber(t, f) == 1
  {
  }

  function Gone(evicted: Option<nat>): set<nat> {
    if evicted.Some? then {evicted.value} else {}
  }

  lemma UpsertRows(t: Tables, u: Upload, evicted: Option<nat>, t': Tables)
    requires VersionsHaveFiles(t) && Upserted(t, u, evicted, t')
    ensures var f := TargetFile(t, u.source);
      && VersionsOf(t', f) == VersionsOf(t, f) - Gone(evicted) + {t.nextVersion}
      && (forall g | g != f :: VersionsOf(t', g) == VersionsOf(t, g))
      && (f !in t.files ==> VersionsOf(t, f) == {})
      && Gone(evicted) <= VersionsOf(t, f)
  {
    hide NextNumber, IsOldest;
    assert evicted.Some? ==> evicted.value in VersionsOf(t, TargetFile(t, u.source)) by {
      OldestIsThere(t, u, evicted, t');
    }
  }

  lemma OldestIsThere(t: Tables, u: Upload, evicted: Option<nat>, t': Tables)
    requires Upserted(t, u, evicted, t')
    ensures evicted.Some? ==> evicted.value in VersionsOf(t, TargetFile(t, u.source))
  {
  }

  lemma UpsertKeepsSound(t: Tables, u: Upload, evicted: Option<nat>, t': Tables)
    requires Sound(t) && Upserted(t, u, evicted, t')
    ensures Sound(t')
  {
    hide FilesHaveVersions, VersionsHaveFiles, NumbersUnique, Upserted;
    UpsertCounts(t, u, evicted, t');
    UpsertOwners(t, u, evicted, t');
    UpsertPaths(t, u, evicted, t');
    UpsertNumbers(t, u, evicted, t');
  }

  lemma UpsertOwners(t: Tables, u: Upload, evicted: Option<nat>, t': Tables)
    requires VersionsHaveFiles(t) && Upserted(t, u, evicted, t')
    ensures VersionsHaveFiles(t')
  {
  }

  lemma UpsertPaths(t: Tables, u: Upload, evicted: Option<nat>, t': Tables)
    requires PathsUnique(t) && Upserted(t, u, evicted, t')
    ensures PathsUnique(t')
  {
    hide NextNumber, IsOldest, TargetFile;
    TargetIsUnique(t, u.source);
  }

  lemma UpsertNumbers(t: Tables, u: Upload, evicted: Option<nat>, t': Tables)
    requires VersionsHaveFiles(t) && NumbersUnique(t) && Upserted(t, u, evicted, t')
    ensures NumbersUnique(t')
  {
    hide NextNumber, IsOldest, TargetFile;
    var f := TargetFile(t, u.source);
    NextNumberIsLarger(t, f);
    forall v | v in t.versions && t.versions[v].file == f
      ensures t.versions[v].number < NextNumber(t, f)
    {
      InVersionsOf(t, f, v);
    }
  }

  lemma InVersionsOf(t: Tables, f: nat, v: nat)
    ensures v in VersionsOf(t, f) <==> v in t.versions && t.versions[v].file == f
  {
  }

  lemma TargetIsUnique(t: Tables, source: string)
    requires PathsUnique(t)
    ensures forall g | g in t.files && t.files[g].source == source :: g == TargetFile(t, source)
    ensures TargetFile(t, source) in t.files ==>
      FilesAt(t, source) == {} || t.files[TargetFile(t, source)].source == source
  {
    forall g | g in t.files && t.files[g].source == source
      ensures g == TargetFile(t, source)
    {
      assert g in FilesAt(t, source);
    }
  }

  lemma UpsertCounts(t: Tables, u: Upload, evicted: Option<nat>, t': Tables)
    requires Sound(t) && Upserted(t, u, evicted, t')
    ensures FilesHaveVersions(t')
  {
    hide NextNumber, IsOldest;
    UpsertRows(t, u, evicted, t');
    hide VersionsOf;
    var f := TargetFile(t, u.source);
    assert |VersionsOf(t, f)| <= MAX_VERSIONS;
    assert t.nextVersion !in VersionsOf(t, f) by {
      InVersionsOf(t, f, t.nextVersion);
    }
    assert f < t'.nextFile;
  }

  lemma DeleteVersionKeepsSound(t: Tables, f: nat, number: int)
    requires Sound(t)
    ensures Sound(VersionDeleted(t, f, number))
  {
    var t' := VersionDeleted(t, f, number);
    assert FilesHaveVersions(t') by {
      forall g | g in t'.files
        ensures 1 <= |VersionsOf(t', g)| <= MAX_VERSIONS
      {
        DeleteVersionRows(t, f, number, g);
        SubsetIsSmaller(VersionsOf(t', g), VersionsOf(t, g));
      }
    }
  }

  lemma DeleteVersionRows(t: Tables, f: nat, number: int, g: nat)
    requires FilesHaveVersions(t)
    ensures var t' := VersionDeleted(t, f, number);
      && VersionsOf(t', g) <= VersionsOf(t, g)
      && (g != f ==> VersionsOf(t', g) == VersionsOf(t, g))
      && (g in t'.files ==> VersionsOf(t', g) != {})
  {
    var t' := VersionDeleted(t, f, number);
    if g != f {
      assert VersionsOf(t', g) == VersionsOf(t, g);
    } else if v :| v in t'.versions && t'.versions[v].file == f {
      assert v in VersionsOf(t', f);
    }
  }

  lemma {:induction false} SubsetIsSmaller(a: set<nat>, b: set<nat>)
    requires a <= b
    ensures |a| <= |b|
    decreases a
  {
    if a != {} {
      var x :| x in a;
      SubsetIsSmaller(a - {x}, b - {x});
    }
  }

  lemma RemoveKeepsSound(t: Tables, ids: set<nat>)
    requires Sound(t)
    ensures Sound(FilesRemoved(t, ids))
  {
    var t' := FilesRemoved(t, ids);
    forall g | g in t'.files
      ensures VersionsOf(t', g) == VersionsOf(t, g)
    {
    }
  }

  lemma StepKeepsSound(t: Tables, op: Op, t': Tables)
    requires Sound(t) && Step(t, op, t')
    ensures Sound(t')
  {
    hide Sound;
    match op {
      case Upsert(u) =>
        var evicted :| Upserted(t, u, evicted, t');
        UpsertKeepsSound(t, u, evicted, t');
      case DeleteVersion(f, number) =>
        DeleteVersionKeepsSound(t, f, number);
      case RemoveFiles(ids) =>
        RemoveKeepsSound(t, ids);
      case Mark(_, _) =>
        SameRowsKeepSound(t, t');
      case Clear(_) =>
        SameRowsKeepSound(t, t');
      case Retime(_, _) =>
        SameRowsKeepSound(t, t');
    }
  }

  /** Nothing but marks and modification times changed. */
  lemma SameRowsKeepSound(t: Tables, t': Tables)
    requires Sound(t)
    requires t'.files.Keys == t.files.Keys && forall f | f in t.files :: t'.files[f].source == t.files[f].source
    requires t'.versions.Keys == t.versions.Keys
    requires forall v | v in t.versions ::
      t'.versions[v].file == t.versions[v].file && t'.versions[v].number == t.versions[v].number
    requires t'.nextFile == t.nextFile && t'.nextVersion == t.nextVersion
    ensures Sound(t')
  {
    forall f | f in t'.files
      ensures VersionsOf(t', f) == VersionsOf(t, f)
    {
    }
  }

  // ---------- The store ----------

  /** SQL LIKE: '%' stands for any text, '_' for any one character, and ASCII case does not count. */
  predicate Like(pattern: string, text: string) {
    LikeCharacters(Characters(pattern), Characters(text))
  }

  predicate LikeCharacters(pattern: seq<string>, text: seq<string>)
    decreases |pattern| + |text|
  {
    if pattern == [] then text == []
    else if pattern[0] == "%" then
      LikeCharacters(pattern[1..], text) || (text != [] && LikeCharacters(pattern, text[1..]))
    else
      && text != []
      && (pattern[0] == "_" || SameButCase(pattern[0], text[0]))
      && LikeCharacters(pattern[1..], text[1..])
  }

  predicate SameButCase(a: string, b: string) {
    a == b || (|a| == 1 && |b| == 1 && Fold(a[0]) == Fold(b[0]))
  }

  function Fold(c: char): char {
    if 'A' <= c <= 'Z' then c - 'A' + 'a' else c
  }

  /** The files a display prefix selects; the empty prefix selects all of them. */
  function FilesUnder(t: Tables, prefix: string): set<nat> {
    set f | f in t.files && (prefix == "" || Like(prefix + "%", t.files[f].display))
  }

  /** The version rows of these files. */
  function RowsOfFiles(t: Tables, ids: set<nat>): set<nat> {
    set v | v in t.versions && t.versions[v].file in ids
  }

  /** rows lists every member of ids once. */
  ghost predicate Lists(rows: seq<nat>, ids: set<nat>) {
    && (forall i, j | 0 <= i < j < |rows| :: rows[i] != rows[j])
    && (forall v :: v in rows <==> v in ids)
  }

  lemma ListsOneMore(rows: seq<nat>, ids: set<nat>, v: nat)
    requires Lists(rows, ids) && v !in ids
    ensures Lists(rows + [v], ids + {v})
    ensures forall i | 0 <= i < |rows| :: rows[i] in ids
  {
  }

  /** The blobs of these rows and no others, as many as there are rows. */
  ghost predicate BlobsOf(t: Tables, rows: set<nat>, blobs: seq<BlobId>) {
    && |blobs| == |rows|
    && (forall i | 0 <= i < |blobs| :: exists v :: v in rows && v in t.versions && t.versions[v].blob == blobs[i])
    && (forall v | v in rows && v in t.versions :: t.versions[v].blob in blobs)
  }

  lemma {:induction false} ListedLength(rows: seq<nat>, ids: set<nat>)
    requires Lists(rows, ids)
    ensures |rows| == |ids|
  {
    if rows != [] {
      var v := rows[|rows| - 1];
      var front := rows[..|rows| - 1];
      assert rows == front + [v];
      assert forall w :: w in front <==> w in ids - {v};
      ListedLength(front, ids - {v});
    }
  }

  lemma BlobsOfRows(t: Tables, ids: set<nat>, rows: seq<nat>, blobs: seq<BlobId>)
    requires Lists(rows, ids)
    requires |blobs| == |rows|
    requires forall i | 0 <= i < |rows| :: rows[i] in t.versions && blobs[i] == t.versions[rows[i]].blob
    ensures BlobsOf(t, ids, blobs)
  {
    ListedLength(rows, ids);
    forall i | 0 <= i < |blobs|
      ensures exists v :: v in ids && v in t.versions && t.versions[v].blob == blobs[i]
    {
      assert rows[i] in rows;
    }
    forall v | v in ids && v in t.versions
      ensures t.versions[v].blob in blobs
    {
      var i :| 0 <= i < |rows| && rows[i] == v;
      assert blobs[i] == t.versions[v].blob;
    }
  }

  class Database {
    var files: map<nat, FileRow>
    var versions: map<nat, VersionRow>
    var nextFile: nat
    var nextVersion: nat

    ghost function State(): Tables
      reads this
    {
      Tables(files, versions, nextFile, nextVersion)
    }

    constructor ()
      ensures State() == EMPTY
    {
      files, versions, nextFile, nextVersion := map[], map[], 1, 1;
    }

    /** SELECT id FROM files WHERE source_path=? */
    method FindFile(source: string) returns (found: Option<nat>)
      requires PathsUnique(State())
      ensures found.Some? ==> found.value == TargetFile(State(), source) && found.value in FilesAt(State(), source)
      ensures found.None? ==> FilesAt(State(), source) == {} && TargetFile(State(), source) == nextFile
    {
      ghost var t := State();
      TargetIsUnique(t, source);
      var matching := set f | f in files && files[f].source == source;
      assert matching == FilesAt(t, source);
      if matching == {} {
        return None;
      }
      var f :| f in matching;
      found := Some(f);
    }

    /** SELECT MAX(version_num) of the file's rows, plus one; 1 when there are none. */
    method NextVersionNum(f: nat) returns (number: int)
      ensures number == NextNumber(State(), f)
    {
      var rows := RowsOf(f);
      if rows == {} {
        return 1;
      }
      ghost var t := State();
      ghost var top := TopNumberExists(t, f);
      assert exists v :: v in rows && forall w | w in rows :: versions[w].number <= versions[v].number;
      var maxVer :| maxVer in rows && forall w | w in rows :: versions[w].number <= versions[maxVer].number;
      NextNumberIsLarger(t, f);
      number := versions[maxVer].number + 1;
    }

    function RowsOf(f: nat): (rows: set<nat>)
      reads this
      ensures rows == VersionsOf(State(), f)
      ensures forall v | v in rows :: v in versions
    {
      set v | v in versions && versions[v].file == f
    }

    /** SELECT id FROM file_versions WHERE file_id=? ORDER BY encrypted_at ASC LIMIT 1 */
    method OldestVersion(f: nat) returns (v: nat)
      requires VersionsOf(State(), f) != {}
      ensures IsOldest(State(), f, v)
    {
      var rows := RowsOf(f);
      ghost var oldest := OldestExists(State(), f);
      assert exists o :: o in rows && forall w | w in rows :: versions[o].encryptedAt <= versions[w].encryptedAt;
      v :| v in rows && forall w | w in rows :: versions[v].encryptedAt <= versions[w].encryptedAt;
    }

    /** Answers the blob of the evicted row, if a row was evicted. A failing transaction is rolled back. */
    method UpsertFileVersion(u: Upload, commits: bool) returns (r: Result<Option<BlobId>>, ghost evicted: Option<nat>)
      requires Sound(State())
      modifies this
      ensures Sound(State())
      ensures r.Success? <==> commits
      ensures r.Failure? ==> State() == old(State())
      ensures r.Success? ==> Upserted(old(State()), u, evicted, State())
      ensures r.Success? ==> r.value == if evicted.None? then None else Some(old(versions)[evicted.value].blob)
    {
      hide NextNumber, IsOldest, TargetFile, FilesHaveVersions, VersionsHaveFiles, NumbersUnique;
      evicted := None;
      if !commits {
        return Failure, evicted;
      }
      ghost var t := State();
      var found := FindFile(u.source);
      var fileID := if found.Some? then found.value else nextFile;
      var count := |RowsOf(fileID)|;
      var nextVer := NextVersionNum(fileID);
      if count < MAX_VERSIONS {
        r := Success(None);
      } else {
        OldestNeedsRows(t, fileID);
        var evictID := OldestVersion(fileID);
        OldestIsARow(t, fileID, evictID);
        r, evicted := Success(Some(versions[evictID].blob)), Some(evictID);
        versions := versions - {evictID};
      }
      versions := versions[nextVersion := RowOf(u, fileID, nextVer)];
      FoundOrNew(t, u.source, found);
      files := files[fileID := FileRow(u.source, u.display, None)];
      nextFile := if found.Some? then nextFile else nextFile + 1;
      nextVersion := nextVersion + 1;
      UpsertKeepsSound(t, u, evicted, State());
    }

    /** SELECT id FROM file_versions WHERE file_id=? ORDER BY encrypted_at DESC LIMIT 1 */
    method LatestVersion(f: nat) returns (v: nat)
      requires VersionsOf(State(), f) != {}
      ensures IsLatest(State(), f, v)
    {
      var rows := RowsOf(f);
      ghost var latest := LatestExists(State(), f);
      assert exists o :: o in rows && forall w | w in rows :: versions[w].encryptedAt <= versions[o].encryptedAt;
      v :| v in rows && forall w | w in rows :: versions[w].encryptedAt <= versions[v].encryptedAt;
    }

    /** The latest row of a source path; a path without rows has none (hash "" in the answer). */
    method GetLatestVersionInfo(source: string) returns (v: Option<nat>)
      requires Sound(State())
      ensures v.None? <==> FilesAt(State(), source) == {}
      ensures v.Some? ==> IsLatest(State(), TargetFile(State(), source), v.value)
    {
      var found := FindFile(source);
      if found.None? {
        return None;
      }
      var latest := LatestVersion(found.value);
      v := Some(latest);
    }

    method UpdateLatestVersionMtime(source: string, mtime: int, commits: bool)
      requires Sound(State())
      modifies this
      ensures Sound(State())
      ensures !commits ==> State() == old(State())
      ensures commits ==> Retimed(old(State()), source, mtime, State())
    {
      ghost var t := State();
      if commits {
        var v := GetLatestVersionInfo(source);
        if v.Some? {
          versions := versions[v.value := versions[v.value].(mtime := mtime)];
          assert State() == t.(versions := t.versions[v.value := t.versions[v.value].(mtime := mtime)]);
        }
        StepKeepsSound(t, Retime(source, mtime), State());
      }
    }

    method DeleteFileVersion(f: nat, number: int, commits: bool) returns (r: Result<BlobId>)
      requires Sound(State())
      modifies this
      ensures Sound(State())
      ensures r.Success? <==>
        commits && exists v :: v in old(versions) && old(versions)[v].file == f && old(versions)[v].number == number
      ensures r.Failure? ==> State() == old(State())
      ensures r.Success? ==> State() == VersionDeleted(old(State()), f, number)
      ensures r.Success? ==> exists v :: v in old(versions) && old(versions)[v].file == f
                                      && old(versions)[v].number == number && old(versions)[v].blob == r.value
    {
      hide Sound;
      ghost var t := State();
      var rows := set v | v in versions && versions[v].file == f && versions[v].number == number;
      if rows == {} || !commits {
        assert forall v | v in versions && versions[v].file == f && versions[v].number == number :: v in rows;
        return Failure;
      }
      var v :| v in rows;
      r := Success(versions[v].blob);
      OnlyRow(t, v);
      versions := versions - {v};
      assert versions == VersionDeleted(t, f, number).versions;
      var others := set w | w in versions && versions[w].file == f;
      if others == {} {
        assert forall w | w in versions && versions[w].file == f :: w in others;
        files := files - {f};
      } else {
        var w :| w in others;
        assert w in versions && versions[w].file == f;
      }
      StepKeepsSound(t, DeleteVersion(f, number), State());
    }

    /** SELECT id FROM files WHERE display_path LIKE prefix%, or every file. */
    function Select(prefix: string): (ids: set<nat>)
      reads this
      ensures ids == FilesUnder(State(), prefix)
    {
      set f | f in files && (prefix == "" || Like(prefix + "%", files[f].display))
    }

    method DeleteFilesByIDs(ids: set<nat>, commits: bool) returns (ok: bool)
      requires Sound(State())
      modifies this
      ensures Sound(State()) && ok == (commits || ids == {})
      ensures State() == if ok then FilesRemoved(old(State()), ids) else old(State())
    {
      ghost var t := State();
      ok := commits || ids == {};
      if ok {
        versions := map v | v in versions && versions[v].file !in ids :: versions[v];
        files := files - ids;
        StepKeepsSound(t, RemoveFiles(ids), State());
      }
    }

    method DeleteFilesByDisplayPrefix(prefix: string, commits: bool) returns (ok: bool)
      requires Sound(State())
      modifies this
      ensures Sound(State()) && ok == commits
      ensures State() == if ok then FilesRemoved(old(State()), FilesUnder(old(State()), prefix)) else old(State())
    {
      ok := commits;
      if ok {
        var done := DeleteFilesByIDs(Select(prefix), commits);
      }
    }

    method MarkFileDeletedIfUnset(source: string, at: int, commits: bool)
      requires Sound(State())
      modifies this
      ensures Sound(State())
      ensures State() == if commits then Marked(old(State()), source, at) else old(State())
    {
      ghost var t := State();
      if commits {
        files := map f | f in files ::
          if files[f].source == source && files[f].deletedAt.None? then files[f].(deletedAt := Some(at)) else files[f];
        StepKeepsSound(t, Mark(source, at), State());
      }
    }

    method ClearFileDeleted(source: string, commits: bool)
      requires Sound(State())
      modifies this
      ensures Sound(State())
      ensures State() == if commits then Cleared(old(State()), source) else old(State())
    {
      ghost var t := State();
      if commits {
        files := map f | f in files ::
          if files[f].source == source then files[f].(deletedAt := None) else files[f];
        StepKeepsSound(t, Clear(source), State());
      }
    }

    /** A row encrypted no earlier than any other of these. */
    method NewestOf(rows: set<nat>) returns (v: nat)
      requires rows != {} && rows <= versions.Keys
      ensures v in rows && forall w | w in rows :: versions[w].encryptedAt <= versions[v].encryptedAt
    {
      var all := versions;
      ghost var g := GreatestExists(rows, w => if w in all then all[w].encryptedAt else 0);
      v :| v in rows && forall w | w in rows :: versions[w].encryptedAt <= versions[v].encryptedAt;
    }

    /** GetFileVersions: the rows of a file, newest first, tied rows in any order. */
    method GetFileVersions(f: nat) returns (order: seq<nat>)
      ensures Lists(order, VersionsOf(State(), f))
      ensures forall i | 0 <= i < |order| :: order[i] in versions
      ensures forall i, j | 0 <= i < j < |order| :: versions[order[j]].encryptedAt <= versions[order[i]].encryptedAt
    {
      var rows := RowsOf(f);
      var left := rows;
      order := [];
      while left != {}
        invariant left <= rows
        invariant Lists(order, rows - left)
        invariant forall i | 0 <= i < |order| :: order[i] in rows
        invariant forall i, v | 0 <= i < |order| && v in left ::
          versions[v].encryptedAt <= versions[order[i]].encryptedAt
        invariant forall i, j | 0 <= i < j < |order| :: versions[order[j]].encryptedAt <= versions[order[i]].encryptedAt
        decreases left
      {
        var v := NewestOf(left);
        ListsOneMore(order, rows - left, v);
        assert rows - (left - {v}) == rows - left + {v};
        order, left := order + [v], left - {v};
      }
    }

    /** The blob ids of all versions of these files, in no particular order. */
    method ListBlobIDsByFileIDs(ids: set<nat>) returns (blobs: seq<BlobId>)
      ensures BlobsOf(State(), RowsOfFiles(State(), ids), blobs)
    {
      var all := set v | v in versions && versions[v].file in ids;
      assert all == RowsOfFiles(State(), ids);
      var left := all;
      blobs := [];
      ghost var rows: seq<nat> := [];
      while left != {}
        invariant left <= all
        invariant Lists(rows, all - left)
        invariant |blobs| == |rows|
        invariant forall i | 0 <= i < |rows| :: rows[i] in versions && blobs[i] == versions[rows[i]].blob
        decreases left
      {
        var v :| v in left;
        blobs, rows, left := blobs + [versions[v].blob], rows + [v], left - {v};
      }
      BlobsOfRows(State(), all, rows, blobs);
    }

    method ListBlobIDsByDisplayPrefix(prefix: string) returns (blobs: seq<BlobId>)
      ensures BlobsOf(State(), RowsOfFiles(State(), FilesUnder(State(), prefix)), blobs)
    {
      blobs := ListBlobIDsByFileIDs(Select(prefix));
    }
  }

  lemma OnlyRow(t: Tables, v: nat)
    requires Sound(t) && v in t.versions
    ensures forall w | w in t.versions && t.versions[w].file == t.versions[v].file
                    && t.versions[w].number == t.versions[v].number :: w == v
  {
  }

  lemma OldestNeedsRows(t: Tables, f: nat)
    requires |VersionsOf(t, f)| >= MAX_VERSIONS
    ensures VersionsOf(t, f) != {}
  {
  }

  lemma OldestIsARow(t: Tables, f: nat, v: nat)
    requires IsOldest(t, f, v)
    ensures v in t.versions
  {
  }

  lemma FoundOrNew(t: Tables, source: string, found: Option<nat>)
    requires Sound(t)
    requires found.Some? ==> found.value in FilesAt(t, source)
    ensures found.Some? ==> found.value in t.files
    ensures t.nextFile !in t.files
  {
  }
}
