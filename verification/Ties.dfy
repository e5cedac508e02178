/** Which readings of the clock leave the queries for a file's latest version a choice. */
module Ties {
  import opened Basics
  import opened Database
  import opened Versions

  /** No upload read a later time than this one. */
  ghost predicate IsGreatest(us: seq<Upload>, i: int) {
    0 <= i < |us| && forall j | 0 <= j < |us| :: us[j].at <= us[i].at
  }

  /** The greatest of the clock's readings was read by one upload only. */
  ghost predicate ReadOnce(us: seq<Upload>) {
    forall i, j | IsGreatest(us, i) && IsGreatest(us, j) :: i == j
  }

  ghost predicate HasLatest(t: Tables, f: nat) {
    exists v :: IsLatest(t, f, v)
  }

  ghost predicate OneLatest(t: Tables, f: nat) {
    forall v, w | IsLatest(t, f, v) && IsLatest(t, f, w) :: v == w
  }

  /** The latest rows bear the greatest reading, and several of them tell that it was read several times. */
  ghost predicate Follows(t: Tables, f: nat, us: seq<Upload>) {
    && HasLatest(t, f)
    && (forall v, i | IsLatest(t, f, v) && IsGreatest(us, i) :: t.versions[v].encryptedAt == us[i].at)
    && (OneLatest(t, f) <==> ReadOnce(us))
  }

  lemma {:induction false} SomeIsGreatest(us: seq<Upload>) returns (g: int)
    requires us != []
    ensures IsGreatest(us, g)
  {
    var k := |us| - 1;
    if k == 0 {
      g := 0;
    } else {
      g := SomeIsGreatest(us[..k]);
      assert us == us[..k] + [us[k]];
      GreatestOfMore(us[..k], us[k], g);
      if us[k].at >= us[g].at {
        g := k;
      }
    }
  }

  /** The greatest readings after one more. */
  lemma GreatestOfMore(us: seq<Upload>, u: Upload, g: int)
    requires IsGreatest(us, g)
    ensures u.at > us[g].at ==> forall i :: IsGreatest(us + [u], i) <==> i == |us|
    ensures u.at == us[g].at ==> forall i :: IsGreatest(us + [u], i) <==> i == |us| || IsGreatest(us, i)
    ensures u.at < us[g].at ==> forall i :: IsGreatest(us + [u], i) <==> IsGreatest(us, i)
  {
    var all := us + [u];
    assert forall i | 0 <= i < |us| :: all[i] == us[i];
    assert all[|us|] == u && all[g] == us[g];
    forall i
      ensures IsGreatest(all, i) ==> i == |us| || IsGreatest(us, i)
    {
      if IsGreatest(all, i) && i < |us| {
        forall j | 0 <= j < |us|
          ensures us[j].at <= us[i].at
        {
          assert all[j].at <= all[i].at;
        }
      }
    }
  }

  /** The rows of the file before and after an upload. */
  ghost predicate OneMoreRow(t: Tables, t': Tables, f: nat, evicted: Option<nat>, u: Upload) {
    var n := t.nextVersion;
    && n !in VersionsOf(t, f)
    && VersionsOf(t', f) == VersionsOf(t, f) - Gone(evicted) + {n}
    && t'.versions[n].encryptedAt == u.at
    && (forall v | v in VersionsOf(t, f) - Gone(evicted) :: t'.versions[v].encryptedAt == t.versions[v].encryptedAt)
    && (evicted.Some? ==> IsOldest(t, f, evicted.value) && |VersionsOf(t, f)| >= 3)
  }

  lemma UploadAddsRow(t: Tables, u: Upload, evicted: Option<nat>, t': Tables)
    requires Sound(t) && Upserted(t, u, evicted, t')
    ensures OneMoreRow(t, t', TargetFile(t, u.source), evicted, u)
  {
    hide NextNumber, TargetFile, NumbersUnique, PathsUnique;
    UpsertRows(t, u, evicted, t');
  }

  /** A later reading makes its row the only latest one. */
  lemma LaterRow(t: Tables, t': Tables, f: nat, evicted: Option<nat>, u: Upload, top: nat)
    requires OneMoreRow(t, t', f, evicted, u) && IsLatest(t, f, top) && t.versions[top].encryptedAt < u.at
    ensures forall v :: IsLatest(t', f, v) <==> v == t.nextVersion
  {
    assert t.nextVersion in VersionsOf(t', f);
  }

  /** The eviction leaves a row as late as the latest. */
  lemma LatestStays(t: Tables, f: nat, evicted: Option<nat>, top: nat) returns (w: nat)
    requires IsLatest(t, f, top) && (evicted.Some? ==> IsOldest(t, f, evicted.value) && |VersionsOf(t, f)| >= 3)
    ensures IsLatest(t, f, w) && w in VersionsOf(t, f) - Gone(evicted)
    ensures evicted.Some? && IsLatest(t, f, evicted.value) ==>
      exists x :: x != w && IsLatest(t, f, x) && x in VersionsOf(t, f) - Gone(evicted)
  {
    var rows := VersionsOf(t, f);
    w := top;
    if evicted.Some? && IsLatest(t, f, evicted.value) {
      var left := rows - {evicted.value};
      assert |left| == |rows| - 1;
      w :| w in left;
      var more := left - {w};
      assert |more| == |left| - 1;
      var x :| x in more;
      assert IsLatest(t, f, w) && IsLatest(t, f, x);
    }
  }

  /** The same reading again ties. */
  lemma EqualRow(t: Tables, t': Tables, f: nat, evicted: Option<nat>, u: Upload, top: nat)
    requires OneMoreRow(t, t', f, evicted, u) && IsLatest(t, f, top) && t.versions[top].encryptedAt == u.at
    ensures HasLatest(t', f) && !OneLatest(t', f)
    ensures forall v | IsLatest(t', f, v) :: t'.versions[v].encryptedAt == u.at
  {
    var w := LatestStays(t, f, evicted, top);
    assert IsLatest(t', f, t.nextVersion) && IsLatest(t', f, w);
  }

  /** An earlier reading changes nothing about the latest. */
  lemma EarlierRow(t: Tables, t': Tables, f: nat, evicted: Option<nat>, u: Upload, top: nat)
    requires OneMoreRow(t, t', f, evicted, u) && IsLatest(t, f, top) && u.at < t.versions[top].encryptedAt
    ensures HasLatest(t', f) && (OneLatest(t', f) <==> OneLatest(t, f))
    ensures forall v | IsLatest(t', f, v) :: t'.versions[v].encryptedAt == t.versions[top].encryptedAt
  {
    var w := LatestStays(t, f, evicted, top);
    assert IsLatest(t', f, w);
    forall v
      ensures IsLatest(t', f, v) <==> IsLatest(t, f, v) && v in VersionsOf(t, f) - Gone(evicted)
    {
    }
    if x :| x != w && IsLatest(t, f, x) && x in VersionsOf(t, f) - Gone(evicted) {
      assert IsLatest(t', f, x);
    }
  }

  lemma FollowsAt(t: Tables, f: nat, us: seq<Upload>, g: int)
    requires HasLatest(t, f) && IsGreatest(us, g) && (OneLatest(t, f) <==> ReadOnce(us))
    requires forall v | IsLatest(t, f, v) :: t.versions[v].encryptedAt == us[g].at
    ensures Follows(t, f, us)
  {
  }

  lemma FollowsThroughUpload(t: Tables, t': Tables, f: nat, evicted: Option<nat>, u: Upload, us: seq<Upload>)
    requires OneMoreRow(t, t', f, evicted, u) && us != [] && Follows(t, f, us)
    ensures Follows(t', f, us + [u])
  {
    var all := us + [u];
    var g := SomeIsGreatest(us);
    GreatestOfMore(us, u, g);
    var top :| IsLatest(t, f, top);
    assert t.versions[top].encryptedAt == us[g].at;
    assert all[g] == us[g] && all[|us|] == u;
    if us[g].at < u.at {
      LaterRow(t, t', f, evicted, u, top);
      assert IsLatest(t', f, t.nextVersion) && t'.versions[t.nextVersion].encryptedAt == u.at;
      hide IsLatest, OneMoreRow, IsGreatest;
      FollowsAt(t', f, all, |us|);
    } else if us[g].at == u.at {
      EqualRow(t, t', f, evicted, u, top);
      hide IsLatest, OneMoreRow, IsGreatest, OneLatest;
      assert IsGreatest(all, g) && IsGreatest(all, |us|);
      FollowsAt(t', f, all, g);
    } else {
      EarlierRow(t, t', f, evicted, u, top);
      hide IsLatest, OneMoreRow, IsGreatest, OneLatest;
      FollowsAt(t', f, all, g);
    }
  }

  lemma FirstUpload(t: Tables, t': Tables, f: nat, evicted: Option<nat>, u: Upload)
    requires OneMoreRow(t, t', f, evicted, u) && VersionsOf(t, f) == {}
    ensures Follows(t', f, [u])
  {
    assert IsLatest(t', f, t.nextVersion);
  }

  lemma SameTimesFollow(t: Tables, t': Tables, f: nat, us: seq<Upload>)
    requires Follows(t, f, us) && VersionsOf(t', f) == VersionsOf(t, f)
    requires forall v | v in VersionsOf(t, f) :: t'.versions[v].encryptedAt == t.versions[v].encryptedAt
    ensures Follows(t', f, us)
  {
    forall v
      ensures IsLatest(t', f, v) <==> IsLatest(t, f, v)
    {
    }
    hide IsGreatest;
  }

  /** Steps that are no uploads of the file leave its encryption times alone. */
  lemma FollowsThroughOthers(t: Tables, op: Op, t': Tables, source: string, us: seq<Upload>)
    requires Sound(t) && Step(t, op, t') && Spares(t, op, source) && FilesAt(t, source) != {}
    requires !(op.Upsert? && op.u.source == source) && Follows(t, TargetFile(t, source), us)
    ensures FilesAt(t', source) == FilesAt(t, source) && Follows(t', TargetFile(t', source), us)
  {
    StepKeepsSound(t, op, t');
    OthersKeepFile(t, op, t', source);
    OthersKeepRows(t, op, t', source);
    TargetStays(t, t', source);
    hide *;
    SameTimesFollow(t, t', TargetFile(t, source), us);
  }

  lemma TargetStays(t: Tables, t': Tables, source: string)
    requires Sound(t) && Sound(t') && FilesAt(t', source) == FilesAt(t, source) != {}
    ensures TargetFile(t', source) == TargetFile(t, source)
  {
    TargetIsUnique(t', source);
  }

  /**
    Under any clock: while nothing deletes versions of a file, its latest rows bear the greatest time
    any of its uploads read, and there are several exactly when several uploads read it.
   */
  lemma {:induction false} LatestFollowsClock(ts: seq<Tables>, ops: seq<Op>, source: string)
    requires Run(ts, ops)
    requires forall i | 0 <= i < |ops| :: Spares(ts[i], ops[i], source)
    ensures var t, us := ts[|ops|], UploadsTo(ops, source);
      && (us == [] <==> FilesAt(t, source) == {})
      && (us != [] ==> Follows(t, TargetFile(t, source), us))
    decreases |ops|
  {
    if ops != [] {
      var k := |ops| - 1;
      assert Run(ts[..|ops|], ops[..k]);
      LatestFollowsClock(ts[..|ops|], ops[..k], source);
      RunIsSound(ts, ops, k);
      assert Step(ts[k], ops[k], ts[|ops|]);
      FollowsThroughStep(ts[k], ops[k], ts[|ops|], source, UploadsTo(ops[..k], source));
    }
  }

  lemma FollowsThroughStep(t: Tables, op: Op, t': Tables, source: string, us: seq<Upload>)
    requires Sound(t) && Step(t, op, t') && Spares(t, op, source)
    requires us == [] <==> FilesAt(t, source) == {}
    requires us != [] ==> Follows(t, TargetFile(t, source), us)
    ensures var us' := us + if op.Upsert? && op.u.source == source then [op.u] else [];
      && (us' == [] <==> FilesAt(t', source) == {})
      && (us' != [] ==> Follows(t', TargetFile(t', source), us'))
  {
    hide Follows, Upserted, Sound;
    if op.Upsert? && op.u.source == source {
      var evicted :| Upserted(t, op.u, evicted, t');
      UploadTarget(t, op.u, evicted, t');
      UploadAddsRow(t, op.u, evicted, t');
      if us == [] {
        NoRowsYet(t, source);
        FirstUpload(t, t', TargetFile(t, source), evicted, op.u);
        assert [] + [op.u] == [op.u];
      } else {
        FollowsThroughUpload(t, t', TargetFile(t, source), evicted, op.u, us);
      }
    } else {
      assert us + [] == us;
      if us == [] {
        OthersKeepFile(t, op, t', source);
      } else {
        FollowsThroughOthers(t, op, t', source, us);
      }
    }
  }

  lemma NoRowsYet(t: Tables, source: string)
    requires Sound(t) && FilesAt(t, source) == {}
    ensures VersionsOf(t, TargetFile(t, source)) == {}
  {
  }

  /**
    So every query for the latest version names the row the scan looks at, exactly when the greatest
    reading of the clock by an upload of the file was read by one upload only.
   */
  lemma QueriesAgreeIff(ts: seq<Tables>, ops: seq<Op>, source: string, scan: nat)
    requires Run(ts, ops)
    requires forall i | 0 <= i < |ops| :: Spares(ts[i], ops[i], source)
    requires IsLatestForScan(ts[|ops|], TargetFile(ts[|ops|], source), scan) && UploadsTo(ops, source) != []
    ensures (forall v | IsLatest(ts[|ops|], TargetFile(ts[|ops|], source), v) :: v == scan)
      <==> ReadOnce(UploadsTo(ops, source))
  {
    LatestFollowsClock(ts, ops, source);
    QueriesAgreeIffNoTie(ts[|ops|], TargetFile(ts[|ops|], source), scan);
    hide IsLatest, IsLatestForScan, ReadOnce, Run, Spares, TargetFile, UploadsTo;
  }
}
