/** Whole histories of the backup protocol: any interleaving, any failures, any crashes. */
module History {
  import opened Basics
  import opened Streams
  import opened Container
  import opened Database
  import opened Protocol

  ghost predicate Behaves(k: Setup, ss: seq<System>, acts: seq<Action>) {
    && |ss| == |acts| + 1
    && ss[0] == START
    && forall i | 0 <= i < |acts| :: Next(k, ss[i], acts[i], ss[i + 1])
  }

  lemma {:induction false} EveryStateIsGood(k: Setup, ss: seq<System>, acts: seq<Action>, i: nat)
    requires Behaves(k, ss, acts) && i < |ss|
    ensures Inv(k, ss[i])
  {
    hide Inv, Next;
    if i == 0 {
      StartIsGood(k);
    } else {
      EveryStateIsGood(k, ss, acts, i - 1);
      NextKeepsInv(k, ss[i - 1], acts[i - 1], ss[i]);
    }
  }

  /**
    In every reachable state, a version whose blob no purge has listed is stored whole: its object
    has the recorded hash and decrypts to the bytes read for it. A listed blob may be gone, but
    what is stored under the id of any version is never anything else.
   */
  lemma EveryVersionIsStored(k: Setup, ss: seq<System>, acts: seq<Action>, i: nat, v: nat)
    requires Behaves(k, ss, acts) && i < |ss| && v in ss[i].db.versions
    ensures var s, row := ss[i], ss[i].db.versions[v];
      && row.blob in s.plain
      && (row.blob in s.remote ==>
            && DecodeBlob(k.aead, k.gunzip, s.remote[row.blob], Eof) == (s.plain[row.blob], Done)
            && k.sha(s.remote[row.blob]) == row.blobHash)
      && (row.blob !in s.remote ==> row.blob in s.condemned)
  {
    EveryStateIsGood(k, ss, acts, i);
  }

  // ---------- Without purges ----------

  lemma {:induction false} OnlyPurgesCondemn(k: Setup, ss: seq<System>, acts: seq<Action>, i: nat)
    requires Behaves(k, ss, acts) && i < |ss|
    requires forall j | 0 <= j < i :: !acts[j].StartPurge?
    ensures ss[i].condemned == {}
  {
    if i > 0 {
      OnlyPurgesCondemn(k, ss, acts, i - 1);
      assert Next(k, ss[i - 1], acts[i - 1], ss[i]);
    }
  }

  /** Backups alone, however they fail and crash, lose no recorded version. */
  lemma BackupsLoseNothing(k: Setup, ss: seq<System>, acts: seq<Action>, i: nat, v: nat)
    requires Behaves(k, ss, acts) && i < |ss| && v in ss[i].db.versions
    requires forall j | 0 <= j < i :: !acts[j].StartPurge?
    ensures var s, row := ss[i], ss[i].db.versions[v];
      && row.blob in s.remote && row.blob in s.plain
      && DecodeBlob(k.aead, k.gunzip, s.remote[row.blob], Eof) == (s.plain[row.blob], Done)
      && k.sha(s.remote[row.blob]) == row.blobHash
  {
    OnlyPurgesCondemn(k, ss, acts, i);
    EveryVersionIsStored(k, ss, acts, i, v);
  }

  // ---------- Without failures ----------

  /** A step of a backup that goes well. */
  ghost predicate GoesWell(act: Action) {
    act.Begin? || act.Send? || act.FinishUpload? || act.Commit? || (act.DeleteEvicted? && act.ok) || act.Touch?
  }

  lemma {:induction false} NothingIsLeftBehind(k: Setup, ss: seq<System>, acts: seq<Action>, i: nat)
    requires Behaves(k, ss, acts) && i < |ss|
    requires forall j | 0 <= j < i :: GoesWell(acts[j])
    ensures ss[i].leaked == {} && ss[i].condemned == {}
  {
    if i > 0 {
      NothingIsLeftBehind(k, ss, acts, i - 1);
      assert Next(k, ss[i - 1], acts[i - 1], ss[i]);
      assert GoesWell(acts[i - 1]);
    }
  }

  /** If every step went well, then between files the stored blobs are exactly the recorded ones. */
  lemma StoredIsRecorded(k: Setup, ss: seq<System>, acts: seq<Action>, i: nat)
    requires Behaves(k, ss, acts) && i < |ss| && ss[i].workers == map[]
    requires forall j | 0 <= j < i :: GoesWell(acts[j])
    ensures ss[i].remote.Keys == Referenced(ss[i].db)
  {
    var s := ss[i];
    EveryStateIsGood(k, ss, acts, i);
    NothingIsLeftBehind(k, ss, acts, i);
    assert InFlight(s) == {};
    forall blob
      ensures blob in s.remote <==> blob in Referenced(s.db)
    {
      ReferencedIs(s.db, blob);
    }
  }

  // ---------- The record of what was read ----------

  /** Blob ids have a recorded text only once their upload is through. */
  ghost predicate TextsDrawn(s: System) {
    && s.plain.Keys <= s.used
    && forall w | w in s.workers && s.workers[w].Uploading? :: s.workers[w].blob !in s.plain
  }

  lemma FinishKeepsTexts(k: Setup, s: System, w: nat, u: Upload, plain: Bytes, s': System)
    requires WorkersApart(s) && AllDrawn(s) && TextsDrawn(s) && Finishes(k, s, w, u, plain, s')
    ensures TextsDrawn(s')
    ensures forall blob | blob in s.plain :: blob in s'.plain && s'.plain[blob] == s.plain[blob]
  {
  }

  lemma OthersKeepTexts(k: Setup, s: System, act: Action, s': System)
    requires TextsDrawn(s) && Next(k, s, act, s') && !act.FinishUpload?
    ensures TextsDrawn(s') && s'.plain == s.plain
  {
    hide Upserted, Step, Listed, Removed, InFlight;
    if act.Begin? {
      assert Begins(s, act.w, act.blob, s');
    }
  }

  lemma NextKeepsTexts(k: Setup, s: System, act: Action, s': System)
    requires Inv(k, s) && TextsDrawn(s) && Next(k, s, act, s')
    ensures TextsDrawn(s')
    ensures forall blob | blob in s.plain :: blob in s'.plain && s'.plain[blob] == s.plain[blob]
  {
    if act.FinishUpload? {
      FinishKeepsTexts(k, s, act.w, act.u, act.plain, s');
    } else {
      OthersKeepTexts(k, s, act, s');
    }
  }

  /** What was read for a blob is recorded once and never changes. */
  lemma {:induction false} TextsAreFixed(k: Setup, ss: seq<System>, acts: seq<Action>, i: nat, j: nat, blob: BlobId)
    requires Behaves(k, ss, acts) && i <= j < |ss| && blob in ss[i].plain
    ensures blob in ss[j].plain && ss[j].plain[blob] == ss[i].plain[blob]
    decreases j
  {
    hide Inv, TextsDrawn, Next;
    if i < j {
      TextsAreFixed(k, ss, acts, i, j - 1, blob);
      TextsAreDrawn(k, ss, acts, j - 1);
      EveryStateIsGood(k, ss, acts, j - 1);
      NextKeepsTexts(k, ss[j - 1], acts[j - 1], ss[j]);
    }
  }

  lemma {:induction false} TextsAreDrawn(k: Setup, ss: seq<System>, acts: seq<Action>, i: nat)
    requires Behaves(k, ss, acts) && i < |ss|
    ensures TextsDrawn(ss[i])
  {
    hide Inv, Next;
    if i > 0 {
      TextsAreDrawn(k, ss, acts, i - 1);
      EveryStateIsGood(k, ss, acts, i - 1);
      NextKeepsTexts(k, ss[i - 1], acts[i - 1], ss[i]);
    }
  }

  // ---------- The objects of recorded versions ----------

  /** No upload is about this blob, and none ever will be. */
  ghost predicate IsFinal(s: System, blob: BlobId) {
    blob in s.used && forall w | w in s.workers && !s.workers[w].Evicting? :: Held(s.workers[w]) != blob
  }

  lemma RecordedIsFinal(k: Setup, s: System, v: nat)
    requires Inv(k, s) && v in s.db.versions
    ensures IsFinal(s, s.db.versions[v].blob)
  {
    hide Good;
  }

  /** A step leaves the object of such a blob as it is, or removes it. */
  lemma StepKeepsObject(k: Setup, s: System, act: Action, s': System, blob: BlobId)
    requires Next(k, s, act, s') && IsFinal(s, blob)
    ensures IsFinal(s', blob)
    ensures blob in s'.remote ==> blob in s.remote && s'.remote[blob] == s.remote[blob]
  {
    hide Good, Upserted, Step, Listed, Removed, InFlight, Referenced;
    match act {
      case Send(w, _) => assert Held(s.workers[w]) != blob;
      case FinishUpload(w, _, _) => assert Held(s.workers[w]) != blob;
      case _ =>
    }
  }

  /** The bytes stored for a recorded version never change; they can only go. */
  lemma {:induction false} ObjectsAreFixed(k: Setup, ss: seq<System>, acts: seq<Action>, i: nat, j: nat, v: nat)
    requires Behaves(k, ss, acts) && i <= j < |ss| && v in ss[i].db.versions
    ensures var blob := ss[i].db.versions[v].blob;
      && IsFinal(ss[j], blob)
      && (blob in ss[j].remote ==> blob in ss[i].remote && ss[j].remote[blob] == ss[i].remote[blob])
    decreases j
  {
    hide Inv, Next, IsFinal;
    if i == j {
      EveryStateIsGood(k, ss, acts, i);
      RecordedIsFinal(k, ss[i], v);
    } else {
      ObjectsAreFixed(k, ss, acts, i, j - 1, v);
      StepKeepsObject(k, ss[j - 1], acts[j - 1], ss[j], ss[i].db.versions[v].blob);
    }
  }
}
