/** What an integrity scan looks at, and what it can find in a store that only this program writes. */
module Scan {
  import opened Basics
  import opened Database
  import opened Paths
  import opened Protocol
  import opened History
  import ScanPool

  datatype ScanEntry = ScanEntry(source: string, blob: BlobId, blobHash: string)

  function EntryOf(t: Tables, v: nat): ScanEntry
    requires v in t.versions && t.versions[v].file in t.files
  {
    ScanEntry(t.files[t.versions[v].file].source, t.versions[v].blob, t.versions[v].blobHash)
  }

  /** The row the scan query joins a file with, when that row has a blob hash. */
  ghost predicate IsScanned(t: Tables, v: nat) {
    v in t.versions && t.versions[v].file in t.files
    && IsLatestForScan(t, t.versions[v].file, v) && t.versions[v].blobHash != ""
  }

  lemma {:induction false} LargestExists(ids: set<nat>) returns (g: nat)
    requires ids != {}
    ensures g in ids && forall v | v in ids :: v <= g
    decreases ids
  {
    g := GreatestExists(ids, v => v);
  }

  /** ORDER BY encrypted_at DESC, id DESC LIMIT 1 */
  method LatestForScan(db: Database, f: nat) returns (v: nat)
    requires VersionsOf(db.State(), f) != {}
    ensures IsLatestForScan(db.State(), f, v)
  {
    var rows := db.RowsOf(f);
    var latest := db.LatestVersion(f);
    var tied := set w | w in rows && db.versions[w].encryptedAt == db.versions[latest].encryptedAt;
    assert latest in tied;
    ghost var top := LargestExists(tied);
    v :| v in tied && forall w | w in tied :: w <= v;
    forall w | w in VersionsOf(db.State(), f) && db.versions[w].encryptedAt == db.versions[v].encryptedAt
      ensures w <= v
    {
      assert w in tied;
    }
  }

  lemma OneScannedRow(t: Tables, f: nat, v: nat, w: nat)
    requires IsLatestForScan(t, f, v) && IsLatestForScan(t, f, w)
    ensures v == w
  {
  }

  /** The entries of the files outside left, with the rows they come from. */
  ghost predicate Collected(t: Tables, left: set<nat>, entries: seq<ScanEntry>, rows: seq<nat>) {
    && (forall v :: v in rows <==> IsScanned(t, v) && t.versions[v].file !in left)
    && (forall i, j | 0 <= i < j < |rows| :: rows[i] != rows[j])
    && |entries| == |rows|
    && (forall i | 0 <= i < |rows| :: IsScanned(t, rows[i]) && entries[i] == EntryOf(t, rows[i]))
  }

  lemma HasVersions(t: Tables, f: nat)
    requires Sound(t) && f in t.files
    ensures VersionsOf(t, f) != {}
  {
  }

  lemma NothingCollected(t: Tables)
    ensures Collected(t, t.files.Keys, [], [])
  {
  }

  /** File f's only candidate is v. */
  lemma CollectOne(t: Tables, left: set<nat>, entries: seq<ScanEntry>, rows: seq<nat>, f: nat, v: nat)
    requires Collected(t, left, entries, rows) && f in left && f in t.files && IsLatestForScan(t, f, v)
    ensures v in t.versions && t.versions[v].file == f
    ensures if t.versions[v].blobHash == "" then Collected(t, left - {f}, entries, rows)
            else Collected(t, left - {f}, entries + [EntryOf(t, v)], rows + [v])
  {
  }

  function SourceOf(files: map<nat, FileRow>, f: nat): string {
    if f in files then files[f].source else ""
  }

  /** f's path comes before those of all these files. */
  predicate IsFirst(files: map<nat, FileRow>, left: set<nat>, f: nat) {
    f in left && forall g | g in left :: NameLeq(SourceOf(files, f), SourceOf(files, g))
  }

  lemma {:induction false} FirstExists(files: map<nat, FileRow>, left: set<nat>) returns (f: nat)
    requires left != {}
    ensures IsFirst(files, left, f)
    decreases left
  {
    var g :| g in left;
    f := g;
    NamesCompare(SourceOf(files, g), SourceOf(files, g));
    if left != {g} {
      f := FirstExists(files, left - {g});
      NamesCompare(SourceOf(files, f), SourceOf(files, g));
      if NameLeq(SourceOf(files, g), SourceOf(files, f)) {
        forall h | h in left
          ensures NameLeq(SourceOf(files, g), SourceOf(files, h))
        {
          if h != g {
            NamesChain(SourceOf(files, g), SourceOf(files, f), SourceOf(files, h));
          }
        }
        f := g;
      }
    }
  }

  /** Sorted by the bytes of the source paths. */
  ghost predicate InOrder(entries: seq<ScanEntry>) {
    forall i, j | 0 <= i < j < |entries| :: Before(entries[i].source, entries[j].source)
  }

  /** The entries are in order, and what is left comes after them. */
  ghost predicate OrderedSoFar(files: map<nat, FileRow>, left: set<nat>, entries: seq<ScanEntry>) {
    && (forall i, j | 0 <= i < j < |entries| :: NameLeq(entries[i].source, entries[j].source))
    && (forall i, g | 0 <= i < |entries| && g in left :: NameLeq(entries[i].source, SourceOf(files, g)))
  }

  method PickFirst(files: map<nat, FileRow>, left: set<nat>) returns (f: nat)
    requires left != {}
    ensures f in left && IsFirst(files, left, f)
  {
    ghost var first := FirstExists(files, left);
    f :| f in left && IsFirst(files, left, f);
  }

  lemma NothingOrdered(files: map<nat, FileRow>, left: set<nat>)
    ensures OrderedSoFar(files, left, [])
  {
  }

  lemma FirstKeepsOrder(files: map<nat, FileRow>, left: set<nat>, entries: seq<ScanEntry>, f: nat, e: ScanEntry)
    requires OrderedSoFar(files, left, entries) && IsFirst(files, left, f)
    requires f in files && e.source == files[f].source
    ensures OrderedSoFar(files, left - {f}, entries) && OrderedSoFar(files, left - {f}, entries + [e])
  {
  }

  /** ListLatestVersionsForScan: one entry for every file whose latest row has a blob hash, by source path. */
  method ListLatestVersionsForScan(db: Database) returns (entries: seq<ScanEntry>, ghost rows: seq<nat>)
    requires Sound(db.State())
    ensures Collected(db.State(), {}, entries, rows)
    ensures forall e :: e in entries <==> exists v :: IsScanned(db.State(), v) && EntryOf(db.State(), v) == e
    ensures forall i, j | 0 <= i < j < |entries| :: entries[i].source != entries[j].source
    ensures InOrder(entries)
  {
    ghost var t := db.State();
    var left := db.files.Keys;
    entries, rows := [], [];
    NothingCollected(t);
    NothingOrdered(db.files, left);
    assert t.files == db.files;
    hide Collected, IsLatestForScan, Sound, IsFirst, OrderedSoFar, InOrder;
    while left != {}
      invariant left <= db.files.Keys && Collected(t, left, entries, rows) && OrderedSoFar(db.files, left, entries)
      decreases left
    {
      var f := PickFirst(db.files, left);
      HasVersions(t, f);
      var v := LatestForScan(db, f);
      CollectOne(t, left, entries, rows, f, v);
      var e := ScanEntry(db.files[f].source, db.versions[v].blob, db.versions[v].blobHash);
      FirstKeepsOrder(db.files, left, entries, f, e);
      if db.versions[v].blobHash != "" {
        entries := entries + [e];
        rows := rows + [v];
      }
      left := left - {f};
    }
    CollectedEntries(t, entries, rows);
    OrderedIsInOrder(db.files, left, entries);
  }

  lemma OrderedIsInOrder(files: map<nat, FileRow>, left: set<nat>, entries: seq<ScanEntry>)
    requires OrderedSoFar(files, left, entries)
    ensures InOrder(entries)
  {
    hide NameLeq, Before;
    forall i, j | 0 <= i < j < |entries|
      ensures Before(entries[i].source, entries[j].source)
    {
      NameLeqIff(entries[i].source, entries[j].source);
    }
  }

  lemma CollectedEntries(t: Tables, entries: seq<ScanEntry>, rows: seq<nat>)
    requires Sound(t) && Collected(t, {}, entries, rows)
    ensures forall e :: e in entries <==> exists v :: IsScanned(t, v) && EntryOf(t, v) == e
    ensures forall i, j | 0 <= i < j < |entries| :: entries[i].source != entries[j].source
  {
    hide IsLatestForScan;
    forall e
      ensures e in entries <==> exists v :: IsScanned(t, v) && EntryOf(t, v) == e
    {
      if i :| 0 <= i < |entries| && entries[i] == e {
        assert IsScanned(t, rows[i]);
      }
      if v :| IsScanned(t, v) && EntryOf(t, v) == e {
        var i :| 0 <= i < |rows| && rows[i] == v;
        assert entries[i] == e;
      }
    }
    forall i, j | 0 <= i < j < |entries|
      ensures entries[i].source != entries[j].source
    {
      if entries[i].source == entries[j].source {
        SameFileSameRow(t, rows[i], rows[j]);
      }
    }
  }

  lemma SameFileSameRow(t: Tables, v: nat, w: nat)
    requires PathsUnique(t) && IsScanned(t, v) && IsScanned(t, w)
    requires t.files[t.versions[v].file].source == t.files[t.versions[w].file].source
    ensures v == w
  {
    OneScannedRow(t, t.versions[v].file, v, w);
  }

  function InScope(entries: seq<ScanEntry>, dirs: seq<string>): seq<ScanEntry> {
    if entries == [] then []
    else
      var last := entries[|entries| - 1];
      InScope(entries[..|entries| - 1], dirs) + if IsWithinSourceDirs(last.source, dirs) then [last] else []
  }

  lemma {:induction false} InScopeIsThere(entries: seq<ScanEntry>, dirs: seq<string>, e: ScanEntry)
    ensures e in InScope(entries, dirs) <==> e in entries && IsWithinSourceDirs(e.source, dirs)
  {
    if entries != [] {
      var front, last := entries[..|entries| - 1], entries[|entries| - 1];
      InScopeIsThere(front, dirs, e);
      assert entries == front + [last];
    }
  }

  /** The scoped list is built in the array that holds the entries; no directories means all of them. */
  method Scope(entries: array<ScanEntry>, dirs: seq<string>) returns (n: nat)
    modifies entries
    ensures n <= entries.Length
    ensures entries[..n] == if dirs == [] then old(entries[..]) else InScope(old(entries[..]), dirs)
  {
    if |dirs| == 0 {
      assert entries[..entries.Length] == entries[..];
      return entries.Length;
    }
    ghost var all := entries[..];
    n := 0;
    for i := 0 to entries.Length
      invariant n <= i
      invariant entries[..n] == InScope(all[..i], dirs)
      invariant entries[i..] == all[i..]
    {
      var e := entries[i];
      assert e == entries[i..][0] == all[i];
      assert all[..i + 1][..i] == all[..i];
      assert entries[i + 1..] == all[i..][1..];
      if IsWithinSourceDirs(e.source, dirs) {
        ghost var kept := entries[..n];
        entries[n] := e;
        n := n + 1;
        assert entries[..n] == kept + [e];
      }
    }
    assert all[..entries.Length] == all;
  }

  /** What HashBlob and the comparison make of one entry when the connection does not fail. */
  function FindingOf(sha: Bytes -> string, objects: map<BlobId, Bytes>, e: ScanEntry): ScanPool.Finding {
    if e.blob !in objects then ScanPool.Errored
    else if sha(objects[e.blob]) != e.blobHash then ScanPool.Inconsistent
    else ScanPool.Matching
  }

  /**
    An entry listed in one state of any history and hashed in a later one, with backups, failures,
    crashes and purges in between. The scan finds no inconsistency. It misses the blob only when some
    purge has listed it, or when no version refers to it any more because it was evicted or removed.
   */
  lemma NoFalseAlarm(k: Setup, ss: seq<System>, acts: seq<Action>, i: nat, j: nat, v: nat)
    requires Behaves(k, ss, acts) && i <= j < |ss| && IsScanned(ss[i].db, v)
    ensures var e := EntryOf(ss[i].db, v);
      && FindingOf(k.sha, ss[j].remote, e) != ScanPool.Inconsistent
      && (FindingOf(k.sha, ss[j].remote, e) == ScanPool.Errored ==>
            e.blob in ss[j].condemned || e.blob !in Referenced(ss[j].db))
  {
    var blob := ss[i].db.versions[v].blob;
    EveryVersionIsStored(k, ss, acts, i, v);
    ObjectsAreFixed(k, ss, acts, i, j, v);
    ReferencedIs(ss[j].db, blob);
    if blob in Referenced(ss[j].db) {
      var w :| w in ss[j].db.versions && ss[j].db.versions[w].blob == blob;
      EveryVersionIsStored(k, ss, acts, j, w);
    }
  }

  // ---------- What a scan detects ----------

  /** State j is the one in which version v was recorded: its object holds the bytes then uploaded. */
  ghost predicate RecordedAt(k: Setup, ss: seq<System>, j: nat, v: nat, stored: Bytes) {
    && 0 < j < |ss| && v in ss[j].db.versions && v !in ss[j - 1].db.versions
    && var row := ss[j].db.versions[v];
    && row.blob in ss[j].remote && ss[j].remote[row.blob] == stored && k.sha(stored) == row.blobHash
  }

  /** The object of a row that a commit adds is whole. */
  lemma CommitRecords(k: Setup, s: System, act: Action, s': System, v: nat)
    requires Inv(k, s) && Next(k, s, act, s') && v in s'.db.versions && v !in s.db.versions
    ensures var row := s'.db.versions[v];
      row.blob in s'.remote && k.sha(s'.remote[row.blob]) == row.blobHash
  {
    hide Inv, Upserted, Step;
    if act.Commit? {
      NextKeepsInv(k, s, act, s');
      CommittedIsWhole(k, s, act.w, act.evicted, s', v);
    } else {
      OnlyCommitsAdd(k, s, act, s');
      assert false;
    }
  }

  lemma CommittedIsWhole(k: Setup, s: System, w: nat, evicted: Option<nat>, s': System, v: nat)
    requires Inv(k, s) && Commits(s, w, evicted, s') && v in s'.db.versions && v !in s.db.versions
    ensures var row := s'.db.versions[v];
      row.blob in s'.remote && k.sha(s'.remote[row.blob]) == row.blobHash
  {
    var u := s.workers[w].u;
    assert VersionsHaveFiles(s.db) && UploadsTracked(k, s);
    CommitRows(s.db, u, evicted, s'.db);
    hide Upserted, Inv;
    assert v == s.db.nextVersion;
    assert u.blob in s.remote && Good(k, s.remote[u.blob], s.plain[u.blob], u.blobHash);
  }

  lemma OnlyCommitsAdd(k: Setup, s: System, act: Action, s': System)
    requires Next(k, s, act, s') && !act.Commit?
    ensures s'.db.versions.Keys <= s.db.versions.Keys
    ensures forall v | v in s'.db.versions ::
      s'.db.versions[v].blob == s.db.versions[v].blob && s'.db.versions[v].blobHash == s.db.versions[v].blobHash
  {
    hide Good, InFlight, Listed;
    match act {
      case PurgeRows(p) =>
        RemovedShrinks(s.db, s.purges[p].target);
      case Touch(op) =>
        TouchShrinks(s.db, op, s'.db);
      case _ =>
    }
  }

  /** Every recorded version was recorded at some point, with the bytes uploaded for it. */
  lemma {:induction false} WasRecorded(k: Setup, ss: seq<System>, acts: seq<Action>, i: nat, v: nat)
    returns (j: nat, stored: Bytes)
    requires Behaves(k, ss, acts) && i < |ss| && v in ss[i].db.versions
    ensures j <= i && RecordedAt(k, ss, j, v, stored)
    ensures ss[i].db.versions[v].blob == ss[j].db.versions[v].blob
    ensures ss[i].db.versions[v].blobHash == ss[j].db.versions[v].blobHash
    decreases i
  {
    NothingAtFirst(k, ss, acts, v);
    assert Next(k, ss[i - 1], acts[i - 1], ss[i]);
    hide Inv, Next;
    EveryStateIsGood(k, ss, acts, i - 1);
    if v in ss[i - 1].db.versions {
      j, stored := WasRecorded(k, ss, acts, i - 1, v);
      RowStays(k, ss[i - 1], acts[i - 1], ss[i], v);
    } else {
      CommitRecords(k, ss[i - 1], acts[i - 1], ss[i], v);
      j, stored := i, ss[i].remote[ss[i].db.versions[v].blob];
    }
  }

  lemma NothingAtFirst(k: Setup, ss: seq<System>, acts: seq<Action>, v: nat)
    requires Behaves(k, ss, acts)
    ensures v !in ss[0].db.versions
  {
  }

  lemma RowStays(k: Setup, s: System, act: Action, s': System, v: nat)
    requires Inv(k, s) && Next(k, s, act, s') && v in s.db.versions && v in s'.db.versions
    ensures s'.db.versions[v].blob == s.db.versions[v].blob && s'.db.versions[v].blobHash == s.db.versions[v].blobHash
  {
    hide Upserted, Step, Good;
    if act.Commit? {
      assert VersionsHaveFiles(s.db);
      CommitRows(s.db, s.workers[act.w].u, act.evicted, s'.db);
    } else {
      OnlyCommitsAdd(k, s, act, s');
    }
  }

  /**
    An entry listed in any reachable state, against any store, however its objects were changed from
    outside. It is an error exactly when the object is gone. Otherwise, where sha tells the two texts
    apart, it matches exactly when the object has the bytes uploaded for the version, and is reported
    as inconsistent exactly when it has others.
   */
  lemma ScanDetects(k: Setup, ss: seq<System>, acts: seq<Action>, i: nat, v: nat, objects: map<BlobId, Bytes>)
    returns (j: nat, stored: Bytes)
    requires Behaves(k, ss, acts) && i < |ss| && IsScanned(ss[i].db, v)
    ensures j <= i && RecordedAt(k, ss, j, v, stored) && ss[j].db.versions[v].blob == ss[i].db.versions[v].blob
    ensures var e := EntryOf(ss[i].db, v); var finding := FindingOf(k.sha, objects, e);
      && (finding == ScanPool.Errored <==> e.blob !in objects)
      && (e.blob in objects && objects[e.blob] == stored ==> finding == ScanPool.Matching)
      && (e.blob in objects && (k.sha(objects[e.blob]) == k.sha(stored) ==> objects[e.blob] == stored) ==>
            && (finding == ScanPool.Matching <==> objects[e.blob] == stored)
            && (finding == ScanPool.Inconsistent <==> objects[e.blob] != stored))
  {
    hide Behaves;
    j, stored := WasRecorded(k, ss, acts, i, v);
    hide IsLatestForScan;
  }

  // ---------- What a scan reports ----------

  /** The numbers of the entries with this finding. */
  function WithFinding(sha: Bytes -> string, objects: map<BlobId, Bytes>, entries: seq<ScanEntry>,
                       finding: ScanPool.Finding): set<nat> {
    set i: nat | i < |entries| && FindingOf(sha, objects, entries[i]) == finding
  }

  /**
    A scan that is not cancelled and whose connections hold, over a store that stays as it is: it reports
    as many inconsistencies as there are entries whose object has another hash than was recorded, and
    as many errors as there are entries without an object.
   */
  lemma ScanReports(c: ScanPool.Setting, ss: seq<ScanPool.Scan>, acts: seq<ScanPool.Action>, sha: Bytes -> string,
                    objects: map<BlobId, Bytes>, entries: seq<ScanEntry>)
    requires ScanPool.Run(c, ss, acts) && c.capacity > 0 && c.workers > 0 && c.entries == |entries|
    requires ScanPool.Blocked(c, ss[|acts|]) && !ss[|acts|].cancelled
    requires forall x | x in ss[|acts|].log && x.entry < |entries| ::
      x.finding == FindingOf(sha, objects, entries[x.entry])
    ensures var s := ss[|acts|];
      && s.scanned == |entries|
      && s.inconsistent == |WithFinding(sha, objects, entries, ScanPool.Inconsistent)|
      && s.errors == |WithFinding(sha, objects, entries, ScanPool.Errored)|
  {
    var log := ss[|acts|].log;
    ScanPool.ScanChecksEverything(c, ss, acts);
    hide ScanPool.Run, ScanPool.Blocked, ScanPool.Count, FindingOf;
    ScanPool.AllLogged(log, |entries|);
    var f := (i: nat) => if i < |entries| then FindingOf(sha, objects, entries[i]) else ScanPool.Matching;
    ScanPool.CountIsSize(log, f, ScanPool.Inconsistent);
    ScanPool.CountIsSize(log, f, ScanPool.Errored);
    hide ScanPool.Times, ScanPool.EntriesIn;
    assert WithFinding(sha, objects, entries, ScanPool.Inconsistent) == ScanPool.Found(log, f, ScanPool.Inconsistent);
    assert WithFinding(sha, objects, entries, ScanPool.Errored) == ScanPool.Found(log, f, ScanPool.Errored);
  }
}
