/** The life of a deleted file's record over whole histories of jobs, and when it may be purged. */
module Lifecycles {
  import opened Basics
  import opened Database
  import opened Retention

  /** A retention pass of some job, or any other transaction. Only passes mark and unmark on their own. */
  datatype Event = Passed(p: Pass, purged: bool) | Did(op: Op)

  ghost predicate Happens(t: Tables, e: Event, t': Tables) {
    match e
    case Passed(p, purged) => t' == AfterPass(t, p, purged)
    case Did(op) => Step(t, op, t') && !op.Mark? && !op.Clear?
  }

  ghost predicate History(ts: seq<Tables>, es: seq<Event>) {
    && |ts| == |es| + 1
    && ts[0] == EMPTY
    && forall i | 0 <= i < |es| :: Happens(ts[i], es[i], ts[i + 1])
  }

  lemma HappensKeepsSound(t: Tables, e: Event, t': Tables)
    requires Sound(t) && Happens(t, e, t')
    ensures Sound(t')
  {
    match e {
      case Did(op) => StepKeepsSound(t, op, t');
      case Passed(p, purged) =>
        if p.retention > 0 {
          var t1 := MarksSet(t, p, t.files.Keys);
          SameRowsKeepSound(t, t1);
          if purged {
            RemoveKeepsSound(t1, Expired(t, p));
          }
        }
    }
  }

  lemma {:induction false} HistoryIsSound(ts: seq<Tables>, es: seq<Event>, k: nat)
    requires History(ts, es) && k < |ts|
    ensures Sound(ts[k])
  {
    hide Sound, Happens;
    if k == 0 {
      EmptyIsSound();
    } else {
      HistoryIsSound(ts, es, k - 1);
      HappensKeepsSound(ts[k - 1], es[k - 1], ts[k]);
    }
  }

  lemma EmptyIsSound()
    ensures Sound(EMPTY)
  {
  }

  /** The event backs up this source path again. */
  predicate Uploads(e: Event, source: string) {
    e.Did? && e.op.Upsert? && e.op.u.source == source
  }

  /** What an event does to the mark of a record it leaves in the table. */
  function MarkAfter(row: FileRow, e: Event): Option<int> {
    if Uploads(e, row.source) then None
    else if e.Passed? && e.p.retention > 0 then NewMark(row, e.p)
    else row.deletedAt
  }

  lemma MarkStep(t: Tables, e: Event, t': Tables, f: nat)
    requires Sound(t) && Happens(t, e, t') && f in t'.files
    ensures f in t.files ==> t'.files[f].source == t.files[f].source
    ensures f in t.files ==> t'.files[f].deletedAt == MarkAfter(t.files[f], e)
    ensures f !in t.files ==> t'.files[f].deletedAt.None?
  {
    hide FilesHaveVersions, VersionsHaveFiles, NumbersUnique, NextNumber, IsOldest, IsLatest;
    if e.Did? && e.op.Upsert? {
      var u := e.op.u;
      TargetIsUnique(t, u.source);
      var evicted :| Upserted(t, u, evicted, t');
      assert t'.files == t.files[TargetFile(t, u.source) := FileRow(u.source, u.display, None)];
      TargetOwnsPath(t, u.source);
    }
  }

  lemma TargetOwnsPath(t: Tables, source: string)
    requires Sound(t)
    ensures TargetFile(t, source) in t.files ==> t.files[TargetFile(t, source)].source == source
  {
  }

  /** A mark is set once and then only cleared: no event replaces it by another one. */
  lemma MarksNeverMove(t: Tables, e: Event, t': Tables, f: nat)
    requires Sound(t) && Happens(t, e, t') && f in t.files && f in t'.files && t.files[f].deletedAt.Some?
    ensures t'.files[f].deletedAt == t.files[f].deletedAt || t'.files[f].deletedAt == None
  {
    MarkStep(t, e, t', f);
  }

  /** No pass that covers the path found it and managed to clear the mark, and it was not backed up. */
  predicate StaysMissing(e: Event, source: string) {
    && !Uploads(e, source)
    && (e.Passed? && e.p.retention > 0 && e.p.covers(source) ==> source !in e.p.seen || source in e.p.clearFails)
  }

  /** Event i is the pass that set the mark the record carries from then on, up to state k. */
  ghost predicate MarkedBy(ts: seq<Tables>, es: seq<Event>, i: nat, k: nat, f: nat)
    requires i < k < |ts| && |ts| == |es| + 1
  {
    && es[i].Passed? && es[i].p.retention > 0
    && f in ts[i].files && ts[i].files[f].deletedAt.None?
    && var source := ts[i].files[f].source;
    && es[i].p.covers(source) && source !in es[i].p.seen
    && (forall j | i < j <= k :: f in ts[j].files && ts[j].files[f].source == source
          && ts[j].files[f].deletedAt == Some(StoredSecond(es[i].p.now)))
    && (forall j | i < j < k :: StaysMissing(es[j], source))
  }

  lemma {:induction false} EveryMarkHasAnOrigin(ts: seq<Tables>, es: seq<Event>, k: nat, f: nat) returns (i: nat)
    requires History(ts, es) && k < |ts| && f in ts[k].files && ts[k].files[f].deletedAt.Some?
    ensures i < k && MarkedBy(ts, es, i, k, f)
    decreases k
  {
    assert k > 0;
    var t, e := ts[k - 1], es[k - 1];
    HistoryIsSound(ts, es, k - 1);
    assert Happens(t, e, ts[k]);
    MarkStep(t, e, ts[k], f);
    hide Sound, Happens, History, MarkedBy;
    if t.files[f].deletedAt.None? {
      i := k - 1;
      OriginBegins(ts, es, i, f);
    } else {
      i := EveryMarkHasAnOrigin(ts, es, k - 1, f);
      OriginExtends(ts, es, i, k - 1, f);
    }
  }

  lemma OriginBegins(ts: seq<Tables>, es: seq<Event>, i: nat, f: nat)
    requires |ts| == |es| + 1 && i < |es| && f in ts[i].files && f in ts[i + 1].files
    requires ts[i].files[f].deletedAt.None? && ts[i + 1].files[f].deletedAt.Some?
    requires ts[i + 1].files[f].source == ts[i].files[f].source
    requires ts[i + 1].files[f].deletedAt == MarkAfter(ts[i].files[f], es[i])
    ensures MarkedBy(ts, es, i, i + 1, f)
  {
  }

  lemma OriginExtends(ts: seq<Tables>, es: seq<Event>, i: nat, k: nat, f: nat)
    requires |ts| == |es| + 1 && i < k < |es| && MarkedBy(ts, es, i, k, f) && f in ts[k + 1].files
    requires ts[k + 1].files[f].source == ts[k].files[f].source
    requires ts[k + 1].files[f].deletedAt == MarkAfter(ts[k].files[f], es[k]) && ts[k + 1].files[f].deletedAt.Some?
    ensures MarkedBy(ts, es, i, k + 1, f)
  {
  }

  /**
    Safety over whole histories. When a pass purges a record, an earlier pass, at some time t0, found
    the file missing and marked it; from then on no covering pass found it and cleared the mark, and
    it was not backed up again; and more than the retention time less one second has gone by.
   */
  lemma PurgedOnlyAfterRetention(ts: seq<Tables>, es: seq<Event>, k: nat, f: nat) returns (i: nat)
    requires History(ts, es) && k < |es| && es[k].Passed? && es[k].p.retention > 0
    requires f in Expired(ts[k], es[k].p)
    ensures i < k && MarkedBy(ts, es, i, k, f)
    ensures es[k].p.covers(ts[i].files[f].source) && ts[i].files[f].source !in es[k].p.seen
    ensures es[k].p.now - es[i].p.now > es[k].p.retention - SECOND
  {
    i := EveryMarkHasAnOrigin(ts, es, k, f);
  }

  /** The purge removes no record but the expired ones. */
  lemma PassRemovesOnlyExpired(t: Tables, p: Pass, purged: bool, f: nat)
    requires f in t.files
    ensures f !in AfterPass(t, p, purged).files <==> purged && p.retention > 0 && f in Expired(t, p)
    ensures !p.covers(t.files[f].source) ==>
      f in AfterPass(t, p, purged).files && AfterPass(t, p, purged).files[f] == t.files[f]
  {
  }

  /**
    A pass that finds a marked file removes the danger exactly when its update goes through. If it
    fails the old mark stays, and the next pass that misses the file purges it by that mark.
   */
  lemma SeenFileIsSafeIff(t: Tables, found: Pass, missed: Pass, f: nat)
    requires f in t.files && t.files[f].deletedAt.Some?
    requires found.retention > 0 && found.covers(t.files[f].source) && t.files[f].source in found.seen
    requires missed.retention > 0 && missed.covers(t.files[f].source) && t.files[f].source !in missed.seen
    requires t.files[f].deletedAt.value * SECOND <= missed.now - missed.retention
    ensures f !in Expired(AfterPass(t, found, false), missed) <==> t.files[f].source !in found.clearFails
  {
  }

  // ---------- The retention time of a schedule ----------

  const HOUR: int := 3600 * SECOND
  const TWO63: int := 0x8000_0000_0000_0000

  /** The value of an int64 computation: the exact result modulo 2^64, in two's complement. */
  function Int64(n: int): int {
    (n + TWO63) % (2 * TWO63) - TWO63
  }

  /** DeletedRetentionDuration for a positive value in days or weeks: int64 products, left to right. */
  function RetentionDuration(value: int, weeks: bool): int {
    if weeks then Int64(Int64(Int64(value * 7) * 24) * HOUR) else Int64(Int64(value * 24) * HOUR)
  }

  lemma Int64OfProduct(a: int, b: int)
    ensures Int64(Int64(a) * b) == Int64(a * b)
  {
    var q := (a + TWO63) / (2 * TWO63);
    assert Int64(a) == a - q * (2 * TWO63);
    var x, y := Int64(a) * b + TWO63, a * b + TWO63;
    assert x == y - (q * b) * (2 * TWO63) by {
      assert (a - q * (2 * TWO63)) * b == a * b - (q * b) * (2 * TWO63);
    }
    ModShift(y, q * b, 2 * TWO63);
  }

  lemma ModShift(y: int, q: int, m: int)
    requires m > 0
    ensures (y - q * m) % m == y % m
  {
    var a, b := y / m, (y - q * m) / m;
    var r, s := y % m, (y - q * m) % m;
    assert y == a * m + r && y - q * m == b * m + s;
    assert (a - q - b) * m == s - r;
    SmallMultiple(a - q - b, m, s - r);
  }

  lemma SmallMultiple(d: int, m: int, x: int)
    requires m > 0 && d * m == x && -m < x < m
    ensures x == 0
  {
  }

  /** The duration is the days or weeks asked for exactly up to 106751 days, or 15250 weeks. */
  lemma RetentionDurationIsExactIff(value: int, weeks: bool)
    requires 0 < value < TWO63
    ensures RetentionDuration(value, weeks) == value * (if weeks then 168 else 24) * HOUR
       <==> value <= (if weeks then 15250 else 106751)
  {
    var hours := value * (if weeks then 168 else 24);
    if weeks {
      Int64OfProduct(value * 7, 24);
      assert value * 7 * 24 == hours;
    }
    Int64OfProduct(hours, HOUR);
    assert RetentionDuration(value, weeks) == Int64(hours * HOUR);
  }

  /** Past the bound the product can wrap to a short positive time: 213504 days become less than half an hour. */
  lemma RetentionDurationCanWrap()
    ensures 0 < RetentionDuration(213504, false) < HOUR / 2
  {
  }
}
