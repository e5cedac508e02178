/**
  The imperative processFile is a worker of the protocol, and the imperative purge and retention pass
  are its purges and marks: whatever fails, what one call does to the tables and the remote store is what some run of
  protocol steps does.
 */
module Refinement {
  import opened Basics
  import opened Streams
  import opened Container
  import opened Database
  import opened Protocol
  import opened Backup
  import opened P = Purge
  import opened Retention

  /** Protocol steps from any state, not only from the start. */
  ghost predicate Steps(k: Setup, ss: seq<System>, acts: seq<Action>) {
    && |ss| == |acts| + 1
    && forall i | 0 <= i < |acts| :: Next(k, ss[i], acts[i], ss[i + 1])
  }

  /** They all belong to worker w. */
  ghost predicate AllOf(acts: seq<Action>, w: nat) {
    forall i | 0 <= i < |acts| ::
      match acts[i]
      case Begin(x, _) => x == w
      case Send(x, _) => x == w
      case FinishUpload(x, _, _) => x == w
      case AbortUpload(x) => x == w
      case Commit(x, _) => x == w
      case DeleteEvicted(x, _) => x == w
      case Touch(op) => op.Retime?
      case _ => false
  }

  lemma {:induction false} StepsKeepInv(k: Setup, ss: seq<System>, acts: seq<Action>, i: nat)
    requires Steps(k, ss, acts) && Inv(k, ss[0]) && i < |ss|
    ensures Inv(k, ss[i])
  {
    hide Inv, Next;
    if i > 0 {
      StepsKeepInv(k, ss, acts, i - 1);
      NextKeepsInv(k, ss[i - 1], acts[i - 1], ss[i]);
    }
  }

  lemma OneMoreStep(k: Setup, ss: seq<System>, acts: seq<Action>, act: Action, s': System)
    requires Steps(k, ss, acts) && Next(k, ss[|acts|], act, s')
    ensures Steps(k, ss + [s'], acts + [act])
  {
    hide Next;
    var more, all := ss + [s'], acts + [act];
    forall i | 0 <= i < |all|
      ensures Next(k, more[i], all[i], more[i + 1])
    {
      if i < |acts| {
        assert more[i] == ss[i] && more[i + 1] == ss[i + 1] && all[i] == acts[i];
      }
    }
  }

  lemma BeginsAndSends(k: Setup, s: System, w: nat, blob: BlobId, sent: Bytes)
    returns (ss: seq<System>, acts: seq<Action>)
    requires w !in s.workers && blob !in s.used && blob != ""
    ensures Steps(k, ss, acts) && ss[0] == s && acts == [Begin(w, blob), Send(w, sent)]
    ensures ss[|acts|] == s.(workers := s.workers[w := Uploading(blob, sent, true)], used := s.used + {blob},
                             remote := s.remote[blob := sent])
  {
    var s1 := s.(workers := s.workers[w := Uploading(blob, [], false)], used := s.used + {blob});
    var s2 := s1.(workers := s1.workers[w := Uploading(blob, sent, true)], remote := s1.remote[blob := sent]);
    assert s2.workers == s.workers[w := Uploading(blob, sent, true)];
    assert [] + sent == sent;
    assert Begins(s, w, blob, s1) && Sends(s1, w, sent, s2);
    ss, acts := [s, s1, s2], [Begin(w, blob), Send(w, sent)];
    assert Next(k, ss[0], acts[0], ss[1]) && Next(k, ss[1], acts[1], ss[2]);
  }

  /** An upload that fails, or whose transaction fails, after leaving this much of an object. */
  lemma FailedRun(k: Setup, s: System, w: nat, blob: BlobId, objects: map<BlobId, Bytes>)
    returns (ss: seq<System>, acts: seq<Action>)
    requires w !in s.workers && blob !in s.used && blob != "" && objects - {blob} == s.remote
    ensures Steps(k, ss, acts) && AllOf(acts, w) && ss[0] == s
    ensures var e := ss[|acts|]; e.db == s.db && e.remote == objects && e.workers == s.workers
  {
    if blob in objects {
      ss, acts := BeginsAndSends(k, s, w, blob, objects[blob]);
      var s2 := ss[|acts|];
      assert s2.remote == objects;
      var s3 := s2.(workers := s2.workers - {w}, leaked := s2.leaked + {blob});
      assert s3.workers == s.workers;
      assert GivesUp(s2, w, s3);
      OneMoreStep(k, ss, acts, AbortUpload(w), s3);
      ss, acts := ss + [s3], acts + [AbortUpload(w)];
    } else {
      assert objects == s.remote;
      ss, acts := [s], [];
    }
  }

  /** An upload that never ends: the worker keeps its blob and the part of an object it has sent. */
  lemma StuckRun(k: Setup, s: System, w: nat, blob: BlobId, objects: map<BlobId, Bytes>)
    returns (ss: seq<System>, acts: seq<Action>)
    requires w !in s.workers && blob !in s.used && blob != "" && objects - {blob} == s.remote
    ensures Steps(k, ss, acts) && AllOf(acts, w) && ss[0] == s
    ensures var e := ss[|acts|];
      e.db == s.db && e.remote == objects && IsStuck(s, w, blob, e)
  {
    if blob in objects {
      ss, acts := BeginsAndSends(k, s, w, blob, objects[blob]);
      assert ss[|acts|].remote == objects;
    } else {
      assert objects == s.remote;
      var s1 := s.(workers := s.workers[w := Uploading(blob, [], false)], used := s.used + {blob});
      assert Begins(s, w, blob, s1);
      ss, acts := [s, s1], [Begin(w, blob)];
      assert Next(k, ss[0], acts[0], ss[1]);
    }
  }

  /** Worker w is in the middle of an upload, and the others are as they were. */
  ghost predicate IsStuck(s: System, w: nat, blob: BlobId, e: System) {
    w in e.workers && e.workers[w].Uploading? && e.workers[w].blob == blob && e.workers == s.workers[w := e.workers[w]]
  }

  /** An upload that is recorded. */
  lemma CommittedRun(k: Setup, s: System, w: nat, u: Upload, sent: Bytes, plain: Bytes, evicted: Option<nat>,
                     t': Tables, deleteOk: bool)
    returns (ss: seq<System>, acts: seq<Action>)
    requires w !in s.workers && u.blob !in s.used && u.blob != ""
    requires Good(k, sent, plain, u.blobHash) && Upserted(s.db, u, evicted, t')
    requires evicted.Some? ==> evicted.value in s.db.versions
    ensures Steps(k, ss, acts) && AllOf(acts, w) && ss[0] == s
    ensures var e := ss[|acts|];
      && e.db == t' && e.workers == s.workers && e.plain == s.plain[u.blob := plain]
      && e.remote == s.remote[u.blob := sent]
           - (if evicted.Some? && deleteOk then {s.db.versions[evicted.value].blob} else {})
  {
    hide Good, Upserted;
    ss, acts := BeginsAndSends(k, s, w, u.blob, sent);
    var s2 := ss[2];
    var s3 := s2.(workers := s2.workers[w := Uploaded(u)], plain := s2.plain[u.blob := plain]);
    assert Finishes(k, s2, w, u, plain, s3);
    OneMoreStep(k, ss, acts, FinishUpload(w, u, plain), s3);
    ss, acts := ss + [s3], acts + [FinishUpload(w, u, plain)];
    var s4 := s3.(db := t', workers := if evicted.None? then s3.workers - {w}
                                       else s3.workers[w := Evicting(s.db.versions[evicted.value].blob)]);
    assert Commits(s3, w, evicted, s4);
    OneMoreStep(k, ss, acts, Commit(w, evicted), s4);
    ss, acts := ss + [s4], acts + [Commit(w, evicted)];
    assert evicted.None? ==> s4.workers == s.workers;
    if evicted.Some? {
      var s5 := LastStep(k, s4, w, deleteOk);
      assert s5.workers == s.workers;
      OneMoreStep(k, ss, acts, DeleteEvicted(w, deleteOk), s5);
      ss, acts := ss + [s5], acts + [DeleteEvicted(w, deleteOk)];
    }
  }

  lemma LastStep(k: Setup, s: System, w: nat, ok: bool) returns (s': System)
    requires w in s.workers && s.workers[w].Evicting?
    ensures Next(k, s, DeleteEvicted(w, ok), s')
    ensures s'.db == s.db && s'.workers == s.workers - {w} && s'.plain == s.plain
    ensures s'.remote == if ok then s.remote - {s.workers[w].evictee} else s.remote
  {
    if ok {
      s' := s.(workers := s.workers - {w}, remote := s.remote - {s.workers[w].evictee});
      assert DeletesEvicted(s, w, s');
    } else {
      s' := s.(workers := s.workers - {w}, leaked := s.leaked + {Held(s.workers[w])});
      assert GivesUp(s, w, s');
    }
  }

  lemma TouchedRun(k: Setup, s: System, w: nat, op: Op, t': Tables) returns (ss: seq<System>, acts: seq<Action>)
    requires op.Retime? && Step(s.db, op, t')
    ensures Steps(k, ss, acts) && AllOf(acts, w) && ss[0] == s
    ensures var e := ss[|acts|]; e.db == t' && e.remote == s.remote && e.workers == s.workers
  {
    hide Step;
    var s1 := s.(db := t');
    ss, acts := [s, s1], [Touch(op)];
    assert Touches(s, op, s1);
    assert Next(k, ss[0], acts[0], ss[1]);
  }

  /** In a good state a blob id never drawn is unknown to the tables and the store. */
  lemma UndrawnIsUnknown(k: Setup, s: System, blob: BlobId)
    requires Inv(k, s) && blob !in s.used
    ensures Sound(s.db) && blob !in s.remote && blob !in Referenced(s.db)
  {
  }

  /**
    One call of processFile, from any good state of the protocol in which its tables and store are
    the current ones: the call is a run of one worker's steps, and it ends, or never ends, in a good
    state.
   */
  method ProcessFileRefines(agent: Agent, file: SourceFile, weather: Weather, ghost s: System, ghost w: nat)
    returns (n: nat, stuck: bool, ghost ss: seq<System>, ghost acts: seq<Action>)
    requires Working(agent.k, agent.gzip) && Inv(agent.k, s)
    requires s.db == agent.db.State() && s.remote == agent.remote.objects
    requires w !in s.workers && weather.blob !in s.used && weather.blob != ""
    modifies agent.db, agent.remote
    ensures Steps(agent.k, ss, acts) && AllOf(acts, w) && ss[0] == s
    ensures var e := ss[|acts|];
      && e.db == agent.db.State() && e.remote == agent.remote.objects && Inv(agent.k, e)
      && (if stuck then IsStuck(s, w, weather.blob, e) else e.workers == s.workers)
      && (n == 1 ==> weather.blob in e.plain && e.plain[weather.blob] == DataOf(weather.read))
  {
    assert s.db.versions == agent.db.versions;
    hide *;
    UndrawnIsUnknown(agent.k, s, weather.blob);
    var bytes, hadErr;
    ghost var latest, evicted;
    n, bytes, hadErr, stuck, latest, evicted := agent.ProcessFile(file, weather);
    if n == 1 {
      EvictedIsReferenced(s.db, UploadOf(agent.k, file, weather, agent.remote.objects[weather.blob]),
                          evicted, agent.db.State());
    }
    ss, acts := CallIsRun(agent.k, agent.gzip, file, weather, s, w, agent.db.State(), agent.remote.objects,
                          n, hadErr, stuck, latest, evicted);
    StepsKeepInv(agent.k, ss, acts, |acts|);
  }

  /** The run behind each of the outcomes that the contract of processFile tells apart. */
  lemma CallIsRun(k: Setup, gzip: Gzip, file: SourceFile, weather: Weather, s: System, w: nat, t': Tables,
                  objects: map<BlobId, Bytes>, n: nat, hadErr: bool, stuck: bool, latest: Option<nat>,
                  evicted: Option<nat>)
    returns (ss: seq<System>, acts: seq<Action>)
    requires w !in s.workers && weather.blob !in s.used && weather.blob != "" && n <= 1
    requires n == 0 && !hadErr && !stuck ==>
      objects == s.remote && (t' == s.db || Retimed(s.db, file.path, file.mtime, t'))
    requires hadErr || stuck ==> n == 0 && t' == s.db && objects - {weather.blob} == s.remote
    requires n == 1 ==>
      && weather.blob in objects
      && Upserted(s.db, UploadOf(k, file, weather, objects[weather.blob]), evicted, t')
      && Good(k, objects[weather.blob], DataOf(weather.read), k.sha(objects[weather.blob]))
      && (evicted.Some? ==> evicted.value in s.db.versions)
      && objects == s.remote[weather.blob := objects[weather.blob]]
           - (if evicted.Some? && weather.deleteOk then {s.db.versions[evicted.value].blob} else {})
    ensures |ss| == |acts| + 1 && Steps(k, ss, acts) && AllOf(acts, w) && ss[0] == s
    ensures var e := ss[|acts|];
      && e.db == t' && e.remote == objects
      && (if stuck then IsStuck(s, w, weather.blob, e) else e.workers == s.workers)
      && (n == 1 ==> weather.blob in e.plain && e.plain[weather.blob] == DataOf(weather.read))
  {
    hide Upserted, Good, Next, AllOf, DataOf, Retimed;
    if n == 1 {
      var sent := objects[weather.blob];
      ss, acts := CommittedRun(k, s, w, UploadOf(k, file, weather, sent), sent, DataOf(weather.read), evicted, t',
                               weather.deleteOk);
    } else if stuck {
      ss, acts := StuckRun(k, s, w, weather.blob, objects);
    } else if hadErr {
      ss, acts := FailedRun(k, s, w, weather.blob, objects);
    } else if t' == s.db {
      ss, acts := NoRun(k, s, w);
    } else {
      ss, acts := TouchedRun(k, s, w, Retime(file.path, file.mtime), t');
    }
  }

  lemma NoRun(k: Setup, s: System, w: nat) returns (ss: seq<System>, acts: seq<Action>)
    ensures Steps(k, ss, acts) && AllOf(acts, w) && ss == [s] && acts == []
  {
    ss, acts := [s], [];
  }

  // ---------- Purges ----------

  lemma {:induction false} ElementsAreFewer(s: seq<BlobId>, all: set<BlobId>)
    requires forall b | b in all :: b in s
    ensures |all| <= |s|
    decreases |s|
  {
    if s == [] {
      assert all == {};
    } else {
      var front, last := s[..|s| - 1], s[|s| - 1];
      assert s == front + [last];
      ElementsAreFewer(front, all - {last});
    }
  }

  /** A list as long as its set of elements names nothing twice. */
  lemma {:induction false} NothingTwice(s: seq<BlobId>, all: set<BlobId>)
    requires forall b :: b in s <==> b in all
    requires |s| == |all|
    ensures forall i, j | 0 <= i < j < |s| :: s[i] != s[j]
    decreases |s|
  {
    if s != [] {
      var front, last := s[..|s| - 1], s[|s| - 1];
      assert s == front + [last];
      assert last in s;
      if last in front {
        assert forall b | b in all :: b in front;
        ElementsAreFewer(front, all);
      } else {
        forall b
          ensures b in front <==> b in all - {last}
        {
          assert b in s <==> b in front || b == last;
        }
        NothingTwice(front, all - {last});
      }
    }
  }

  lemma {:induction false} BlobsPerRow(db: Tables, rows: set<nat>)
    requires forall v | v in rows :: v in db.versions
    requires forall v, w | v in rows && w in rows && db.versions[v].blob == db.versions[w].blob :: v == w
    ensures |set v | v in rows :: db.versions[v].blob| == |rows|
    decreases rows
  {
    var all := set v | v in rows :: db.versions[v].blob;
    if rows != {} {
      var v :| v in rows;
      var rest := set w | w in rows - {v} :: db.versions[w].blob;
      BlobsPerRow(db, rows - {v});
      assert all == rest + {db.versions[v].blob};
      assert db.versions[v].blob !in rest;
    }
  }

  lemma BlobsAreDistinct(s: System, target: Target, blobs: seq<BlobId>)
    requires RowsApart(s) && ListsBlobs(s.db, target, blobs)
    ensures forall i, j | 0 <= i < j < |blobs| :: blobs[i] != blobs[j]
  {
    BlobsPerRow(s.db, Rows(s.db, target));
    forall b
      ensures b in blobs <==> b in Listed(s.db, target)
    {
    }
    NothingTwice(blobs, Listed(s.db, target));
  }

  /** The blobs a purge has still to deal with after the first i. */
  function Todo(blobs: seq<BlobId>, i: nat): set<BlobId>
    requires i <= |blobs|
  {
    set j | i <= j < |blobs| :: blobs[j]
  }

  /** The state of a purge that has dealt with the first i blobs. */
  function Purged(s: System, p: nat, target: Target, blobs: seq<BlobId>, broken: nat -> bool, i: nat): System
    requires i <= |blobs|
  {
    s.(purges := s.purges[p := Purge(Todo(blobs, i), target)], condemned := s.condemned + Listed(s.db, target),
       remote := s.remote - DeletedBy(blobs, broken, i))
  }

  lemma {:induction false} RemoteRun(k: Setup, s: System, p: nat, target: Target, blobs: seq<BlobId>,
                                     broken: nat -> bool, i: nat)
    returns (ss: seq<System>, acts: seq<Action>)
    requires p !in s.purges && !target.Version? && i <= |blobs|
    requires ListsBlobs(s.db, target, blobs)
    requires forall i, j | 0 <= i < j < |blobs| :: blobs[i] != blobs[j]
    ensures |ss| == |acts| + 1 && Steps(k, ss, acts) && ss[0] == s
      && ss[|acts|] == Purged(s, p, target, blobs, broken, i)
    decreases i
  {
    hide Listed, Next, DeletedBy;
    if i == 0 {
      var s1 := Purged(s, p, target, blobs, broken, 0);
      StartIsStep(s, p, target, blobs, broken);
      ss, acts := [s, s1], [StartPurge(p, target)];
      assert Next(k, ss[0], acts[0], ss[1]) by {
        StartIsNext(k, s, p, target, s1);
      }
    } else {
      ss, acts := RemoteRun(k, s, p, target, blobs, broken, i - 1);
      var before, after := Purged(s, p, target, blobs, broken, i - 1), Purged(s, p, target, blobs, broken, i);
      BlobIsStep(k, s, p, target, blobs, broken, i - 1);
      OneMoreStep(k, ss, acts, PurgeBlob(p, blobs[i - 1], !broken(i - 1)), after);
      ss, acts := ss + [after], acts + [PurgeBlob(p, blobs[i - 1], !broken(i - 1))];
    }
  }

  lemma StartIsNext(k: Setup, s: System, p: nat, target: Target, s': System)
    requires StartsPurge(s, p, target, s')
    ensures Next(k, s, StartPurge(p, target), s')
  {
  }

  lemma StartIsStep(s: System, p: nat, target: Target, blobs: seq<BlobId>, broken: nat -> bool)
    requires p !in s.purges && ListsBlobs(s.db, target, blobs)
    ensures StartsPurge(s, p, target, Purged(s, p, target, blobs, broken, 0))
  {
    hide Listed;
    NoneGone(s.remote, blobs, broken);
    assert Todo(blobs, 0) == Listed(s.db, target);
  }

  lemma BlobIsStep(k: Setup, s: System, p: nat, target: Target, blobs: seq<BlobId>, broken: nat -> bool, i: nat)
    requires p !in s.purges && !target.Version? && i < |blobs|
    requires forall i, j | 0 <= i < j < |blobs| :: blobs[i] != blobs[j]
    ensures Next(k, Purged(s, p, target, blobs, broken, i), PurgeBlob(p, blobs[i], !broken(i)),
                 Purged(s, p, target, blobs, broken, i + 1))
  {
    hide Listed, DeletedBy;
    var before, after := Purged(s, p, target, blobs, broken, i), Purged(s, p, target, blobs, broken, i + 1);
    OneMore(s.remote, blobs, broken, i);
    assert Todo(blobs, i) == Todo(blobs, i + 1) + {blobs[i]};
    assert blobs[i] !in Todo(blobs, i + 1);
    assert Todo(blobs, i) - {blobs[i]} == Todo(blobs, i + 1);
    assert before.purges[p := Purge(Todo(blobs, i + 1), target)] == after.purges;
    assert PurgesBlob(before, p, blobs[i], !broken(i), after);
  }

  /** The purge ends: with its transaction when it got to it, or without. */
  lemma PurgeEnds(k: Setup, s: System, p: nat, target: Target, todo: set<BlobId>, last: System, rows: bool,
                  ss0: seq<System>, acts0: seq<Action>)
    returns (ss: seq<System>, acts: seq<Action>)
    requires Steps(k, ss0, acts0) && ss0[|acts0|] == last && p !in s.purges
    requires last.purges == s.purges[p := Purge(todo, target)] && last.db == s.db && (rows ==> todo == {})
    ensures |ss| == |acts| + 1 && Steps(k, ss, acts) && ss[0] == ss0[0]
    ensures var e := ss[|acts|];
      && e.db == (if rows then Removed(s.db, target) else s.db)
      && e.remote == last.remote && e.purges == s.purges && e.workers == last.workers
  {
    hide Listed, Removed;
    assert last.purges - {p} == s.purges;
    if rows {
      var e := last.(purges := s.purges, db := Removed(s.db, target),
                     leaked := last.leaked + Listed(s.db, target) * last.remote.Keys);
      assert PurgesRows(last, p, e);
      OneMoreStep(k, ss0, acts0, PurgeRows(p), e);
      ss, acts := ss0 + [e], acts0 + [PurgeRows(p)];
    } else {
      var e := last.(purges := s.purges);
      assert StopsPurge(last, p, e);
      OneMoreStep(k, ss0, acts0, StopPurge(p), e);
      ss, acts := ss0 + [e], acts0 + [StopPurge(p)];
    }
  }

  /** A whole purge by prefix or by files, of which the first i blobs were dealt with. */
  lemma EndedRun(k: Setup, s: System, p: nat, target: Target, blobs: seq<BlobId>, broken: nat -> bool, i: nat,
                 rows: bool)
    returns (ss: seq<System>, acts: seq<Action>)
    requires p !in s.purges && !target.Version? && i <= |blobs| && (rows ==> i == |blobs|)
    requires ListsBlobs(s.db, target, blobs)
    requires forall i, j | 0 <= i < j < |blobs| :: blobs[i] != blobs[j]
    ensures |ss| == |acts| + 1 && Steps(k, ss, acts) && ss[0] == s
    ensures var e := ss[|acts|];
      && e.db == (if rows then Removed(s.db, target) else s.db)
      && e.remote == s.remote - DeletedBy(blobs, broken, i) && e.purges == s.purges && e.workers == s.workers
  {
    ss, acts := RemoteRun(k, s, p, target, blobs, broken, i);
    assert i == |blobs| ==> Todo(blobs, i) == {};
    hide Listed, DeletedBy, Removed, Todo;
    ss, acts := PurgeEnds(k, s, p, target, Todo(blobs, i), ss[|acts|], rows, ss, acts);
  }

  /**
    One call of PurgeByPrefixWithReport, from any good state of the protocol: the call is a run of one
    purge's steps, and it ends in a good state.
   */
  method PurgeRefines(db: Database, remote: RemoteStore, prefix: string, weather: PurgeWeather, k: Setup,
                      ghost s: System, ghost p: nat)
    returns (ending: Ending, ghost ss: seq<System>, ghost acts: seq<Action>)
    requires Inv(k, s) && s.db == db.State() && s.remote == remote.objects && p !in s.purges
    modifies db, remote
    ensures Steps(k, ss, acts) && ss[0] == s
    ensures var e := ss[|acts|];
      e.db == db.State() && e.remote == remote.objects && e.workers == s.workers && e.purges == s.purges && Inv(k, e)
  {
    assert Sound(s.db) && RowsApart(s);
    hide *;
    var result;
    ghost var blobs, reached;
    result, ending, blobs, reached := PurgeByPrefixWithReport(db, remote, prefix, weather);
    ghost var rows := ending == Complete || ending == WithErrors;
    BlobsAreDistinct(s, Prefix(prefix), blobs);
    RemovedIs(s.db, prefix);
    ss, acts := EndedRun(k, s, p, Prefix(prefix), blobs, weather.broken, reached, rows);
    StepsKeepInv(k, ss, acts, |acts|);
  }

  lemma RemovedIs(db: Tables, prefix: string)
    ensures Removed(db, Prefix(prefix)) == FilesRemoved(db, FilesUnder(db, prefix))
  {
  }

  /** The purge of one version: its blob, and then its row, or neither when the deletion breaks. */
  lemma VersionRun(k: Setup, s: System, p: nat, f: nat, number: int, blob: BlobId, broken: bool, rows: bool)
    returns (ss: seq<System>, acts: seq<Action>)
    requires p !in s.purges && Listed(s.db, Version(f, number)) == {blob} && (rows ==> !broken)
    ensures |ss| == |acts| + 1 && Steps(k, ss, acts) && ss[0] == s
    ensures var e := ss[|acts|];
      && e.db == (if rows then Removed(s.db, Version(f, number)) else s.db)
      && e.remote == (if broken then s.remote else s.remote - {blob}) && e.purges == s.purges && e.workers == s.workers
  {
    hide Listed, Removed;
    var target := Version(f, number);
    var s1 := s.(purges := s.purges[p := Purge({blob}, target)], condemned := s.condemned + {blob});
    assert StartsPurge(s, p, target, s1);
    ss, acts := [s, s1], [StartPurge(p, target)];
    assert Next(k, ss[0], acts[0], ss[1]);
    assert s1.purges - {p} == s.purges;
    var left := s1.(purges := s.purges);
    if broken {
      assert PurgesBlob(s1, p, blob, false, left);
      OneMoreStep(k, ss, acts, PurgeBlob(p, blob, false), left);
      ss, acts := ss + [left], acts + [PurgeBlob(p, blob, false)];
    } else {
      var s2 := s1.(purges := s.purges[p := Purge({}, target)], remote := s.remote - {blob});
      assert s1.purges[p].todo - {blob} == {};
      assert s1.purges[p := Purge({}, target)] == s2.purges;
      assert PurgesBlob(s1, p, blob, true, s2);
      OneMoreStep(k, ss, acts, PurgeBlob(p, blob, true), s2);
      ss, acts := ss + [s2], acts + [PurgeBlob(p, blob, true)];
      ss, acts := PurgeEnds(k, s, p, target, {}, s2, rows, ss, acts);
    }
  }

  /** One call of PurgeFileVersion is a run of one purge's steps, and it ends in a good state. */
  method PurgeVersionRefines(db: Database, remote: RemoteStore, f: nat, number: int, broken: bool, commits: bool,
                             k: Setup, ghost s: System, ghost p: nat)
    returns (ok: bool, ghost ss: seq<System>, ghost acts: seq<Action>)
    requires Inv(k, s) && s.db == db.State() && s.remote == remote.objects && p !in s.purges
    modifies db, remote
    ensures Steps(k, ss, acts) && ss[0] == s
    ensures var e := ss[|acts|];
      e.db == db.State() && e.remote == remote.objects && e.workers == s.workers && e.purges == s.purges && Inv(k, e)
  {
    assert Sound(s.db) && s.db.versions == db.versions;
    NamesAreNotEmpty(k, s);
    hide *;
    var missing;
    missing, ok := PurgeFileVersion(db, remote, f, number, broken, commits);
    ss, acts := VersionCallIsRun(k, s, p, f, number, broken, ok, db.State(), remote.objects);
    StepsKeepInv(k, ss, acts, |acts|);
  }

  lemma NamesAreNotEmpty(k: Setup, s: System)
    requires Inv(k, s)
    ensures forall v | v in s.db.versions :: s.db.versions[v].blob != ""
  {
    hide Good;
  }

  lemma VersionCallIsRun(k: Setup, s: System, p: nat, f: nat, number: int, broken: bool, ok: bool, t': Tables,
                         objects: map<BlobId, Bytes>)
    returns (ss: seq<System>, acts: seq<Action>)
    requires Sound(s.db) && p !in s.purges
    requires ok ==> !broken && exists v :: v in s.db.versions && HasKey(s.db.versions[v], f, number)
    requires t' == if ok then VersionDeleted(s.db, f, number) else s.db
    requires broken ==> objects == s.remote
    requires forall v | v in s.db.versions && HasKey(s.db.versions[v], f, number) && !broken ::
      objects == s.remote - {s.db.versions[v].blob}
    requires (forall v | v in s.db.versions :: !HasKey(s.db.versions[v], f, number)) ==> objects == s.remote
    ensures |ss| == |acts| + 1 && Steps(k, ss, acts) && ss[0] == s
    ensures var e := ss[|acts|]; e.db == t' && e.remote == objects && e.workers == s.workers && e.purges == s.purges
  {
    if v :| v in s.db.versions && HasKey(s.db.versions[v], f, number) {
      OneVersionListed(s.db, f, number, v);
      hide Sound, Listed, Removed, Steps;
      ss, acts := VersionRun(k, s, p, f, number, s.db.versions[v].blob, broken, ok);
    } else {
      ss, acts := NoRun(k, s, p);
    }
  }

  lemma OneVersionListed(db: Tables, f: nat, number: int, v: nat)
    requires Sound(db) && v in db.versions && HasKey(db.versions[v], f, number)
    ensures Listed(db, Version(f, number)) == {db.versions[v].blob}
    ensures Removed(db, Version(f, number)) == VersionDeleted(db, f, number)
  {
    OnlyRow(db, v);
    assert Rows(db, Version(f, number)) == {v};
  }

  // ---------- Retention passes ----------

  lemma JoinRuns(k: Setup, ss: seq<System>, acts: seq<Action>, more: seq<System>, moreActs: seq<Action>)
    requires Steps(k, ss, acts) && Steps(k, more, moreActs) && ss[|acts|] == more[0]
    ensures Steps(k, ss + more[1..], acts + moreActs)
    ensures (ss + more[1..])[0] == ss[0] && (ss + more[1..])[|acts + moreActs|] == more[|moreActs|]
  {
    hide Next;
    var all, steps := ss + more[1..], acts + moreActs;
    forall i | 0 <= i < |steps|
      ensures Next(k, all[i], steps[i], all[i + 1])
    {
      if i < |acts| {
        assert all[i] == ss[i] && all[i + 1] == ss[i + 1] && steps[i] == acts[i];
      } else {
        var j := i - |acts|;
        assert all[i] == more[j] && all[i + 1] == more[j + 1] && steps[i] == moreActs[j];
      }
    }
  }

  /** The marks of these files are set by as many steps as there are updates to make. */
  lemma {:induction false} MarksRun(k: Setup, s: System, p: Pass, ids: set<nat>)
    returns (ss: seq<System>, acts: seq<Action>)
    requires Sound(s.db) && ids <= s.db.files.Keys
    ensures |ss| == |acts| + 1 && Steps(k, ss, acts) && ss[0] == s
    ensures ss[|acts|] == s.(db := MarksSet(s.db, p, ids))
    decreases ids
  {
    hide Next, Sound, MarksSet, Update;
    if ids == {} {
      NoMarksSet(s.db, p);
      ss, acts := [s], [];
    } else {
      var f :| f in ids;
      ss, acts := MarksRun(k, s, p, ids - {f});
      assert ids - {f} + {f} == ids;
      OneMark(s.db, p, ids - {f}, f);
      var before, after := ss[|acts|], s.(db := MarksSet(s.db, p, ids));
      if before == after {
        return;
      }
      var act := MarkStep(k, before, p, s.db.files[f], after);
      OneMoreStep(k, ss, acts, act, after);
      ss, acts := ss + [after], acts + [act];
    }
  }

  lemma MarkStep(k: Setup, s: System, p: Pass, e: FileRow, s': System) returns (act: Action)
    requires s' == s.(db := Update(s.db, p, e)) && s' != s
    ensures Next(k, s, act, s')
  {
    hide Marked, Cleared;
    act := Touch(if e.source in p.seen then Clear(e.source) else Mark(e.source, StoredSecond(p.now)));
    assert Touches(s, act.op, s');
  }

  /**
    One retention pass, from any good state of the protocol: its marks and its purge are a run of
    protocol steps, and it ends in a good state.
   */
  method RetentionRefines(db: Database, remote: RemoteStore, pass: Pass, tracked: bool, cancelled: nat -> bool,
                          listed: bool, connects: bool, broken: nat -> bool, commits: bool, k: Setup, ghost s: System,
                          ghost p: nat)
    returns (removed: nat, errs: nat, ghost ss: seq<System>, ghost acts: seq<Action>)
    requires Inv(k, s) && s.db == db.State() && s.remote == remote.objects && p !in s.purges
    modifies db, remote
    ensures Steps(k, ss, acts) && ss[0] == s
    ensures var e := ss[|acts|];
      e.db == db.State() && e.remote == remote.objects && e.workers == s.workers && e.purges == s.purges && Inv(k, e)
  {
    assert Sound(s.db) && RowsApart(s);
    hide *;
    ghost var purged, blobs, reached;
    removed, errs, purged, blobs, reached :=
      ApplyDeletedSourceRetention(db, remote, pass, tracked, cancelled, listed, connects, broken, commits);
    StartedIsSame(pass, tracked);
    ss, acts := PassIsRun(k, s, p, Started(pass, tracked), cancelled, listed && connects, broken, commits,
                          remote.objects, blobs, reached, purged);
    StepsKeepInv(k, ss, acts, |acts|);
  }

  lemma StartedIsSame(pass: Pass, tracked: bool)
    ensures Started(pass, tracked).retention > 0 ==> Started(pass, tracked) == pass
  {
  }

  lemma PassIsRun(k: Setup, s: System, p: nat, pass: Pass, cancelled: nat -> bool, connects: bool, broken: nat -> bool,
                  commits: bool, objects: map<BlobId, Bytes>, blobs: seq<BlobId>, reached: nat, purged: bool)
    returns (ss: seq<System>, acts: seq<Action>)
    requires Sound(s.db) && RowsApart(s) && p !in s.purges
    requires Purges(s.db, pass, cancelled, connects) ==>
      PurgesExactly(s.db, pass, cancelled, broken, commits, s.remote, objects, blobs, reached, purged)
    requires !Purges(s.db, pass, cancelled, connects) ==> !purged && objects == s.remote
    ensures |ss| == |acts| + 1 && Steps(k, ss, acts) && ss[0] == s
    ensures var e := ss[|acts|];
      e.db == AfterPass(s.db, pass, purged) && e.remote == objects && e.workers == s.workers && e.purges == s.purges
  {
    hide Sound, Steps, Next, MarksSet, Expired, ListsBlobs, DeletedBy;
    if pass.retention <= 0 {
      ss, acts := NoRun(k, s, p);
      return;
    }
    ss, acts := MarksRun(k, s, pass, s.db.files.Keys);
    if Purges(s.db, pass, cancelled, connects) {
      var marked, ids := ss[|acts|], Expired(s.db, pass);
      SameBlobsAfterMarks(s.db, pass, ids, blobs);
      MarksKeepRowsApart(s, pass);
      hide RowsApart;
      BlobsAreDistinct(marked, Files(ids), blobs);
      var more, moreActs := EndedRun(k, marked, p, Files(ids), blobs, broken, reached, purged);
      hide Removed;
      assert Removed(marked.db, Files(ids)) == FilesRemoved(marked.db, ids) by {
        RemovedFilesIs(marked.db, ids);
      }
      JoinRuns(k, ss, acts, more, moreActs);
      ss, acts := ss + more[1..], acts + moreActs;
    }
  }

  lemma MarksKeepRowsApart(s: System, pass: Pass)
    requires RowsApart(s)
    ensures RowsApart(s.(db := MarksSet(s.db, pass, s.db.files.Keys)))
  {
  }

  lemma RemovedFilesIs(db: Tables, ids: set<nat>)
    ensures Removed(db, Files(ids)) == FilesRemoved(db, ids)
  {
  }
}
