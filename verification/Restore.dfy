/** Restoring one version of a file: which blob is fetched, and what is written. */
module Restore {
  import opened Basics
  import opened Streams
  import opened Container
  import opened Database
  import opened Protocol
  import opened History
  import opened Versions

  /** The rows of GetFileVersions: the file's rows, newest first. */
  ghost predicate NewestFirst(t: Tables, f: nat, order: seq<nat>) {
    && Lists(order, VersionsOf(t, f))
    && (forall i | 0 <= i < |order| :: order[i] in t.versions)
    && (forall i, j | 0 <= i < j < |order| :: t.versions[order[j]].encryptedAt <= t.versions[order[i]].encryptedAt)
  }

  /** The blob restoreOne fetches: the newest one for 0, else the one with this number, else by position. */
  method SelectBlob(rows: seq<VersionRow>, versionNum: int) returns (r: Option<BlobId>)
    ensures rows == [] ==> r == None
    ensures rows != [] && versionNum == 0 ==> r == Some(rows[0].blob)
    ensures rows != [] && versionNum != 0 ==>
      (exists i :: 0 <= i < |rows| && FirstWith(rows, versionNum, i) && rows[i].blob != "" && r == Some(rows[i].blob))
      || ((forall i | 0 <= i < |rows| && FirstWith(rows, versionNum, i) :: rows[i].blob == "")
          && r == if 1 <= versionNum <= |rows| then Some(rows[versionNum - 1].blob) else None)
  {
    if |rows| == 0 {
      return None;
    }
    if versionNum == 0 {
      return Some(rows[0].blob);
    }
    var blobID := "";
    var i := 0;
    while i < |rows|
      invariant 0 <= i <= |rows| && blobID == ""
      invariant forall j | 0 <= j < i :: rows[j].number != versionNum
    {
      if rows[i].number == versionNum {
        blobID := rows[i].blob;
        break;
      }
      i := i + 1;
    }
    if blobID == "" {
      var idx := versionNum - 1;
      if idx < 0 || idx >= |rows| {
        return None;
      }
      return Some(rows[idx].blob);
    }
    return Some(blobID);
  }

  ghost predicate FirstWith(rows: seq<VersionRow>, versionNum: int, i: nat) {
    i < |rows| && rows[i].number == versionNum && forall j | 0 <= j < i :: rows[j].number != versionNum
  }

  datatype Outcome = Restored | NoSuchVersion | DownloadFailed | DecryptFailed(verdict: Container.Verdict)

  predicate Bears(t: Tables, v: nat, versionNum: int) {
    v in t.versions && t.versions[v].number == versionNum && t.versions[v].blob != ""
  }

  /**
    The blob SelectBlob answers, for the rows of a sound table. An empty blob id counts as no version
    with the number.
   */
  ghost function Selected(t: Tables, order: seq<nat>, versionNum: int): Option<BlobId>
    requires forall i | 0 <= i < |order| :: order[i] in t.versions
  {
    if order == [] then None
    else if versionNum == 0 then Some(t.versions[order[0]].blob)
    else if exists v :: v in order && Bears(t, v, versionNum) then
      var v :| v in order && Bears(t, v, versionNum);
      Some(t.versions[v].blob)
    else if 1 <= versionNum <= |order| then Some(t.versions[order[versionNum - 1]].blob)
    else None
  }

  /**
    restoreOne, for any download: a session that cannot be opened, or a stream that delivers anything,
    in any pieces, and ends properly or not; and for any room in the output file.
   */
  method RestoreOne(k: Setup, db: Database, download: BlobId -> Option<seq<Event>>, f: nat, versionNum: int,
                    out: Writer)
    returns (outcome: Outcome, ghost order: seq<nat>)
    requires Lawful(k.aead) && Sound(db.State())
    modifies out
    ensures NewestFirst(db.State(), f, order)
    ensures var blob := Selected(db.State(), order, versionNum);
      if blob.None? then outcome == NoSuchVersion && out.out == old(out.out)
      else if download(blob.value).None? then outcome == DownloadFailed && out.out == old(out.out)
      else
        var script := download(blob.value).value;
        var (text, end) := DecodeBlob(k.aead, k.gunzip, DataOf(script), EndOf(script));
        && out.out == old(out.out) + Clip(text, old(out.room))
        && outcome == if |text| > old(out.room) then DecryptFailed(SinkFailed)
                      else if end == Container.Done then Restored else DecryptFailed(end)
  {
    hide DataOf, EndOf, DecodeBlob, Sound, Lists, Selected, FirstWith;
    var ids := db.GetFileVersions(f);
    order := ids;
    var rows := seq(|ids|, i requires 0 <= i < |ids| && ids[i] in db.versions reads db => db.versions[ids[i]]);
    var blob := SelectBlob(rows, versionNum);
    assert RowsAre(db.State(), ids, rows);
    SelectedIs(db.State(), f, ids, rows, versionNum, blob);
    hide NewestFirst;
    if blob.None? {
      return NoSuchVersion, order;
    }
    var stream := download(blob.value);
    if stream.None? {
      return DownloadFailed, order;
    }
    var src := new Reader(stream.value);
    var verdict := DecryptFile(k.aead, k.gunzip, src, out);
    outcome := if verdict == Container.Done then Restored else DecryptFailed(verdict);
  }

  /** rows are the rows of order. */
  ghost predicate RowsAre(t: Tables, order: seq<nat>, rows: seq<VersionRow>) {
    |rows| == |order| && forall i | 0 <= i < |rows| :: order[i] in t.versions && rows[i] == t.versions[order[i]]
  }

  lemma SelectedIs(t: Tables, f: nat, order: seq<nat>, rows: seq<VersionRow>, versionNum: int, r: Option<BlobId>)
    requires Sound(t) && NewestFirst(t, f, order) && RowsAre(t, order, rows)
    requires rows == [] ==> r == None
    requires rows != [] && versionNum == 0 ==> r == Some(rows[0].blob)
    requires rows != [] && versionNum != 0 ==>
      (exists i :: 0 <= i < |rows| && FirstWith(rows, versionNum, i) && rows[i].blob != "" && r == Some(rows[i].blob))
      || ((forall i | 0 <= i < |rows| && FirstWith(rows, versionNum, i) :: rows[i].blob == "")
          && r == if 1 <= versionNum <= |rows| then Some(rows[versionNum - 1].blob) else None)
    ensures r == Selected(t, order, versionNum)
  {
    hide Sound, FirstWith, Bears;
    if rows != [] && versionNum != 0 {
      if i :| 0 <= i < |rows| && FirstWith(rows, versionNum, i) && rows[i].blob != "" && r == Some(rows[i].blob) {
        BearerIsSelected(t, f, order, rows, versionNum, i);
      } else {
        NobodyBears(t, f, order, rows, versionNum);
      }
    }
  }

  lemma BearerIsSelected(t: Tables, f: nat, order: seq<nat>, rows: seq<VersionRow>, versionNum: int, i: nat)
    requires Sound(t) && NewestFirst(t, f, order) && RowsAre(t, order, rows) && versionNum != 0
    requires i < |rows| && FirstWith(rows, versionNum, i) && rows[i].blob != ""
    ensures Selected(t, order, versionNum) == Some(rows[i].blob)
  {
    assert order[i] in order && Bears(t, order[i], versionNum);
    forall w | w in order && Bears(t, w, versionNum)
      ensures w == order[i]
    {
      SameNumberSameRow(t, f, order, w, order[i]);
    }
  }

  lemma SameNumberSameRow(t: Tables, f: nat, order: seq<nat>, v: nat, w: nat)
    requires Sound(t) && NewestFirst(t, f, order) && v in order && w in order
    ensures v in t.versions && w in t.versions && (t.versions[v].number == t.versions[w].number ==> v == w)
  {
    assert v in VersionsOf(t, f) && w in VersionsOf(t, f);
  }

  lemma NobodyBears(t: Tables, f: nat, order: seq<nat>, rows: seq<VersionRow>, versionNum: int)
    requires Sound(t) && NewestFirst(t, f, order) && RowsAre(t, order, rows)
    requires forall i | 0 <= i < |rows| && FirstWith(rows, versionNum, i) :: rows[i].blob == ""
    ensures forall v | v in order :: !Bears(t, v, versionNum)
  {
    forall v | v in order && t.versions[v].number == versionNum
      ensures t.versions[v].blob == ""
    {
      var i :| 0 <= i < |order| && order[i] == v;
      var first := FirstOccurrence(rows, versionNum, i);
      SameNumberSameRow(t, f, order, order[first], v);
    }
  }

  lemma FirstOccurrence(rows: seq<VersionRow>, versionNum: int, i: nat) returns (first: nat)
    requires i < |rows| && rows[i].number == versionNum
    ensures FirstWith(rows, versionNum, first)
  {
    first := 0;
    while rows[first].number != versionNum
      invariant first <= i
      invariant forall j | 0 <= j < first :: rows[j].number != versionNum
      decreases i - first
    {
      first := first + 1;
    }
  }

  // ---------- What comes back ----------

  /** The number of a version still present selects that version, whatever the ties among times. */
  lemma PresentNumberIsSelected(t: Tables, f: nat, order: seq<nat>, v: nat)
    requires Sound(t) && NewestFirst(t, f, order) && v in VersionsOf(t, f) && t.versions[v].blob != ""
    ensures Selected(t, order, t.versions[v].number) == Some(t.versions[v].blob)
  {
  }

  /**
    Restoring a version number still present writes exactly the bytes that were backed up as that
    version, in every reachable state, unless a purge has listed its blob for deletion.
   */
  lemma RestoreGivesWhatWasBackedUp(k: Setup, ss: seq<System>, acts: seq<Action>, i: nat, f: nat, v: nat,
                                    order: seq<nat>)
    requires Behaves(k, ss, acts) && i < |ss|
    requires v in VersionsOf(ss[i].db, f) && NewestFirst(ss[i].db, f, order)
    requires ss[i].db.versions[v].blob !in ss[i].condemned
    ensures var s, row := ss[i], ss[i].db.versions[v];
      && Selected(s.db, order, row.number) == Some(row.blob)
      && row.blob in s.remote && row.blob in s.plain
      && DecodeBlob(k.aead, k.gunzip, s.remote[row.blob], Eof) == (s.plain[row.blob], Container.Done)
  {
    EveryStateIsGood(k, ss, acts, i);
    EveryVersionIsStored(k, ss, acts, i, v);
    PresentNumberIsSelected(ss[i].db, f, order, v);
  }

  /** With backups and evictions only, however they fail and crash, that is every version in the table. */
  lemma BackedUpComesBack(k: Setup, ss: seq<System>, acts: seq<Action>, i: nat, f: nat, v: nat, order: seq<nat>)
    requires Behaves(k, ss, acts) && i < |ss|
    requires forall j | 0 <= j < i :: !acts[j].StartPurge?
    requires v in VersionsOf(ss[i].db, f) && NewestFirst(ss[i].db, f, order)
    ensures var s, row := ss[i], ss[i].db.versions[v];
      && Selected(s.db, order, row.number) == Some(row.blob)
      && row.blob in s.remote && row.blob in s.plain
      && DecodeBlob(k.aead, k.gunzip, s.remote[row.blob], Eof) == (s.plain[row.blob], Container.Done)
  {
    OnlyPurgesCondemn(k, ss, acts, i);
    RestoreGivesWhatWasBackedUp(k, ss, acts, i, f, v, order);
  }

  /**
    For a positive number the version selected bears that number exactly when the file has such a
    version. Otherwise a number up to the count of versions quietly selects another version.
   */
  lemma SelectedBearsTheNumberIff(t: Tables, f: nat, order: seq<nat>, n: int)
    requires Sound(t) && NewestFirst(t, f, order) && n >= 1
    requires forall v | v in VersionsOf(t, f) :: t.versions[v].blob != ""
    ensures (exists v ::
               v in VersionsOf(t, f) && t.versions[v].number == n && Selected(t, order, n) == Some(t.versions[v].blob))
       <==> (exists v :: v in VersionsOf(t, f) && t.versions[v].number == n)
    ensures (forall v | v in VersionsOf(t, f) :: t.versions[v].number != n) ==>
      (Selected(t, order, n).Some? <==> n <= |order|)
  {
  }

  // ---------- What each number asks for ----------

  ghost predicate Ascending(t: Tables, rows: seq<nat>) {
    && (forall i | 0 <= i < |rows| :: rows[i] in t.versions)
    && forall i, j | 0 <= i < j < |rows| :: t.versions[rows[i]].encryptedAt < t.versions[rows[j]].encryptedAt
  }

  /** Each row once, newest first. */
  ghost predicate Descending(t: Tables, rows: seq<nat>) {
    && (forall i | 0 <= i < |rows| :: rows[i] in t.versions)
    && (forall i, j | 0 <= i < j < |rows| :: rows[i] != rows[j])
    && forall i, j | 0 <= i < j < |rows| :: t.versions[rows[j]].encryptedAt <= t.versions[rows[i]].encryptedAt
  }

  lemma NoneLater(t: Tables, a: seq<nat>, k: nat)
    requires Ascending(t, a) && k < |a|
    requires t.versions[a[|a| - 1]].encryptedAt <= t.versions[a[k]].encryptedAt
    ensures k == |a| - 1
  {
  }

  lemma NoneNewer(t: Tables, b: seq<nat>, j: nat)
    requires Descending(t, b) && j < |b|
    ensures t.versions[b[j]].encryptedAt <= t.versions[b[0]].encryptedAt
  {
  }

  lemma LastIsFirst(t: Tables, a: seq<nat>, b: seq<nat>)
    requires Ascending(t, a) && Descending(t, b) && (forall v :: v in a <==> v in b) && a != []
    ensures b != [] && b[0] == a[|a| - 1]
  {
    var last := a[|a| - 1];
    assert last in b;
    var j :| 0 <= j < |b| && b[j] == last;
    assert b[0] in b;
    var k :| 0 <= k < |a| && a[k] == b[0];
    hide Ascending, Descending;
    NoneNewer(t, b, j);
    NoneLater(t, a, k);
  }

  lemma HasMember(b: seq<nat>)
    requires b != []
    ensures exists v :: v in b
  {
    assert b[0] in b;
  }

  lemma {:induction false} Backwards(t: Tables, a: seq<nat>, b: seq<nat>)
    requires Ascending(t, a) && Descending(t, b) && forall v :: v in a <==> v in b
    ensures |a| == |b| && forall i | 0 <= i < |a| :: b[i] == a[|a| - 1 - i]
  {
    hide Ascending, Descending;
    if a == [] {
      if b != [] {
        HasMember(b);
      }
    } else {
      LastIsFirst(t, a, b);
      FrontsAre(t, a, b);
      Backwards(t, a[..|a| - 1], b[1..]);
    }
  }

  lemma FrontsAre(t: Tables, a: seq<nat>, b: seq<nat>)
    requires Ascending(t, a) && Descending(t, b) && (forall v :: v in a <==> v in b)
    requires a != [] && b != [] && b[0] == a[|a| - 1]
    ensures Ascending(t, a[..|a| - 1]) && Descending(t, b[1..])
    ensures forall v :: v in a[..|a| - 1] <==> v in b[1..]
  {
    FrontAscends(t, a);
    TailDescends(t, b);
    hide Ascending, Descending;
  }

  lemma FrontAscends(t: Tables, a: seq<nat>)
    requires Ascending(t, a) && a != []
    ensures Ascending(t, a[..|a| - 1]) && a[|a| - 1] !in a[..|a| - 1]
    ensures forall v :: v in a <==> v in a[..|a| - 1] || v == a[|a| - 1]
  {
    assert a == a[..|a| - 1] + [a[|a| - 1]];
  }

  lemma TailDescends(t: Tables, b: seq<nat>)
    requires Descending(t, b) && b != []
    ensures Descending(t, b[1..]) && b[0] !in b[1..]
    ensures forall v :: v in b <==> v in b[1..] || v == b[0]
  {
    assert b == [b[0]] + b[1..];
  }

  lemma HeldAscend(t: Tables, source: string, us: seq<Upload>, ids: seq<nat>)
    requires Ticking(us) && Holds(t, source, us, ids)
    ensures Ascending(t, ids)
  {
    hide TargetFile, VersionsOf, FilesAt;
    assert forall i | 0 <= i < |ids| :: Matches(t, ids[i], us[|us| - |ids| + i], |us| - |ids| + i + 1);
  }

  /** Newest first is the uploads backwards. */
  lemma OrderIsBackwards(t: Tables, source: string, us: seq<Upload>, ids: seq<nat>, order: seq<nat>)
    requires Ticking(us) && us != [] && Holds(t, source, us, ids) && NewestFirst(t, TargetFile(t, source), order)
    ensures |order| == |ids| && forall i | 0 <= i < |ids| :: order[i] == ids[|ids| - 1 - i]
  {
    HeldAscend(t, source, us, ids);
    assert forall v :: v in ids <==> v in Members(ids);
    Backwards(t, ids, order);
  }

  /** The upload whose blob a restore of this version number fetches, of the uploads of a file; 0 for none. */
  function Asked(uploads: nat, versionNum: int): (i: nat)
    ensures i <= uploads
  {
    if versionNum == 0 then uploads
    else if uploads - 2 <= versionNum <= uploads && versionNum >= 1 then versionNum
    else if 1 <= versionNum <= 3 && versionNum <= uploads then uploads + 1 - versionNum
    else 0
  }

  /** The rows of order are the last uploads, backwards, under their numbers. */
  ghost predicate HoldBackwards(t: Tables, us: seq<Upload>, order: seq<nat>) {
    && |order| == (if |us| < 3 then |us| else 3)
    && forall i | 0 <= i < |order| :: order[i] in order && Matches(t, order[i], us[|us| - 1 - i], |us| - i)
  }

  lemma HeldBackwards(t: Tables, source: string, us: seq<Upload>, ids: seq<nat>, order: seq<nat>)
    requires Ticking(us) && us != [] && Holds(t, source, us, ids) && NewestFirst(t, TargetFile(t, source), order)
    ensures HoldBackwards(t, us, order)
  {
    OrderIsBackwards(t, source, us, ids, order);
    hide NewestFirst, TargetFile, VersionsOf, FilesAt, Ticking, Matches;
    var m, n := |ids|, |us|;
    forall i | 0 <= i < m
      ensures order[i] in order && Matches(t, order[i], us[n - 1 - i], n - i)
    {
      assert Matches(t, ids[m - 1 - i], us[n - m + (m - 1 - i)], n - m + (m - 1 - i) + 1);
    }
  }

  lemma HeldIsSelected(t: Tables, us: seq<Upload>, order: seq<nat>, versionNum: int)
    requires us != [] && HoldBackwards(t, us, order) && forall i | 0 <= i < |us| :: us[i].blob != ""
    requires forall i | 0 <= i < |order| :: order[i] in t.versions
    ensures var i := Asked(|us|, versionNum);
      Selected(t, order, versionNum) == if i == 0 then None else Some(us[i - 1].blob)
  {
    var m, n := |order|, |us|;
    if n + 1 - m <= versionNum <= n {
      assert Bears(t, order[n - versionNum], versionNum);
    }
  }

  /**
    What a restore fetches after any run in which the file's versions go only by eviction, under a
    ticking clock: the last upload for 0, the upload of that number where it is one of the last three,
    and for another number up to three the upload that many places from the end.
   */
  lemma RestoreFetches(ts: seq<Tables>, ops: seq<Op>, source: string, order: seq<nat>, versionNum: int)
    requires Run(ts, ops) && forall i | 0 <= i < |ops| :: Spares(ts[i], ops[i], source)
    requires Ticking(UploadsTo(ops, source)) && UploadsTo(ops, source) != []
    requires forall u | u in UploadsTo(ops, source) :: u.blob != ""
    requires NewestFirst(ts[|ops|], TargetFile(ts[|ops|], source), order)
    ensures var us := UploadsTo(ops, source);
      var i := Asked(|us|, versionNum);
      Selected(ts[|ops|], order, versionNum) == if i == 0 then None else Some(us[i - 1].blob)
  {
    hide Step, Spares, Ticking, UploadsTo, Lists, Selected, Holds, HoldBackwards, TargetFile, FilesAt, VersionsOf;
    hide Asked;
    var us := UploadsTo(ops, source);
    var ids := TheLastThreeRemain(ts, ops, source);
    hide Run;
    HeldBackwards(ts[|ops|], source, us, ids, order);
    hide NewestFirst;
    HeldIsSelected(ts[|ops|], us, order, versionNum);
  }

  /** The download delivers what is stored, in any pieces. */
  ghost predicate Faithful(download: BlobId -> Option<seq<Event>>, objects: map<BlobId, Bytes>) {
    forall blob | blob in objects ::
      download(blob).Some? && DataOf(download(blob).value) == objects[blob] && EndOf(download(blob).value) == Eof
  }

  /**
    From any reachable state: restoring the number of a version whose blob no purge has listed writes
    the bytes that were backed up as that version, as far as the output has room, and reports
    success exactly when it had.
   */
  method RestoreRecorded(k: Setup, db: Database, download: BlobId -> Option<seq<Event>>, f: nat, v: nat, out: Writer,
                         ghost ss: seq<System>, ghost acts: seq<Action>, ghost i: nat)
    returns (outcome: Outcome)
    requires Lawful(k.aead) && Behaves(k, ss, acts) && i < |ss| && ss[i].db == db.State()
    requires v in VersionsOf(db.State(), f) && db.versions[v].blob !in ss[i].condemned
    requires Faithful(download, ss[i].remote)
    modifies out
    ensures db.versions[v].blob in ss[i].plain
    ensures var text := ss[i].plain[db.versions[v].blob];
      out.out == old(out.out) + Clip(text, old(out.room)) && (outcome == Restored <==> |text| <= old(out.room))
  {
    EveryStateIsGood(k, ss, acts, i);
    var row := db.versions[v];
    ghost var order;
    outcome, order := RestoreOne(k, db, download, f, row.number, out);
    RestoreGivesWhatWasBackedUp(k, ss, acts, i, f, v, order);
  }

  /**
    A download that ends early without an error, as a broken "cat" does: restoring an uncompressed blob
    reports success exactly when it ended at the end of the header or of a frame, and then the
    complete frames' part of the file is all that is written.
   */
  lemma EarlyEndIsAcceptedIff(k: Setup, nonces: nat -> Nonce, data: Bytes, n: nat, script: seq<Event>)
    requires Lawful(k.aead) && n <= |Blob(PLAIN_MAGIC, k.aead, nonces, data)|
    requires DataOf(script) == Blob(PLAIN_MAGIC, k.aead, nonces, data)[..n] && EndOf(script) == Eof
    ensures var (text, end) := DecodeBlob(k.aead, k.gunzip, DataOf(script), EndOf(script));
      && (end == Container.Done <==> exists m :: ChunkEnd(m, |data|) && n == 8 + FramesSize(m))
      && text == if n < 8 then [] else data[..Container.Kept(|data|, n - 8)]
  {
    hide DecodeBlob, Blob, FramesSize, ChunkEnd;
    CutBlob(k.aead, nonces, k.gunzip, data, n);
  }

  function ExampleUpload(blob: BlobId, at: int): Upload {
    Upload("/f", "f", blob, 1, "hash of " + blob, "blob hash of " + blob, at, 1, at)
  }

  /** Four backups of one file leave versions 2, 3 and 4; asking for version 1 restores version 4. */
  lemma VersionOneGivesVersionFour() returns (ts: seq<Tables>, ops: seq<Op>, f: nat, order: seq<nat>)
    ensures Run(ts, ops) && |ops| == 4
    ensures var t := ts[4];
      && NewestFirst(t, f, order) && order != []
      && (forall v | v in VersionsOf(t, f) :: t.versions[v].number in {2, 3, 4})
      && t.versions[order[0]].number == 4 && Selected(t, order, 1) == Some(t.versions[order[0]].blob)
  {
    var us := [ExampleUpload("a", 1), ExampleUpload("b", 2), ExampleUpload("c", 3), ExampleUpload("d", 4)];
    ts := UploadsRun(us);
    ops := OpsOf(us);
    AllAreUploads(us, "/f");
    var ids := TheLastThreeRemain(ts, ops, "/f");
    f := TargetFile(ts[4], "/f");
    order := [ids[2], ids[1], ids[0]];
    ExampleSelects(ts[4], f, us, ids, order);
  }

  lemma ExampleSelects(t: Tables, f: nat, us: seq<Upload>, ids: seq<nat>, order: seq<nat>)
    requires |us| == 4 && Holds(t, "/f", us, ids) && f == TargetFile(t, "/f")
    requires us[1].at < us[2].at < us[3].at
    requires order == [ids[2], ids[1], ids[0]]
    ensures NewestFirst(t, f, order)
    ensures forall v | v in VersionsOf(t, f) :: t.versions[v].number in {2, 3, 4}
    ensures t.versions[order[0]].number == 4 && Selected(t, order, 1) == Some(t.versions[order[0]].blob)
  {
    assert Matches(t, ids[0], us[1], 2) && Matches(t, ids[1], us[2], 3) && Matches(t, ids[2], us[3], 4);
    assert forall v :: v in Members(ids) <==> v in order;
  }
}
