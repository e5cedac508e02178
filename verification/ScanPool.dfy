/**
  The worker pool of an integrity scan. Unlike the upload pool its producer waits for room in the
  queue without watching for a cancellation, and a worker that sees one returns with the entry it
  has just taken.
 */
module ScanPool {
  import opened Basics
  import opened Sums

  datatype Finding = Matching | Inconsistent | Errored

  /** Took: received an entry and not yet looked at the context. */
  datatype Worker = Idle | Took(entry: nat) | Busy(entry: nat) | Gone

  /** The loop over the entries: about to look at the context, about to send, or done. */
  datatype Producer = Looking | Sending | Done

  datatype Checked = Checked(entry: nat, finding: Finding)

  datatype Scan = Scan(next: nat, producer: Producer, queue: seq<nat>, cancelled: bool, workers: seq<Worker>,
                       log: seq<Checked>, dropped: nat, scanned: nat, inconsistent: nat, errors: nat)

  datatype Setting = Setting(entries: nat, workers: nat, capacity: nat)

  datatype Action =
    | Look
    | Send
    | Take(w: nat)
    | Check(w: nat)
    | Finish(w: nat, finding: Finding)
    | Leave(w: nat)
    | Cancel

  function Start(c: Setting): Scan {
    Scan(0, Looking, [], false, seq(c.workers, i => Idle), [], 0, 0, 0, 0)
  }

  ghost predicate Next(c: Setting, s: Scan, act: Action, s': Scan) {
    match act
    case Look =>
      s.producer == Looking
      && s' == s.(producer := if s.next == c.entries || s.cancelled then Done else Sending)
    case Send =>
      s.producer == Sending && |s.queue| < c.capacity
      && s' == s.(producer := Looking, next := s.next + 1, queue := s.queue + [s.next])
    case Take(w) =>
      w < |s.workers| && s.workers[w].Idle? && s.queue != []
      && s' == s.(queue := s.queue[1..], workers := s.workers[w := Took(s.queue[0])])
    case Check(w) =>
      w < |s.workers| && s.workers[w].Took?
      && s' == if s.cancelled then s.(workers := s.workers[w := Gone], dropped := s.dropped + 1)
               else s.(workers := s.workers[w := Busy(s.workers[w].entry)])
    case Finish(w, finding) =>
      w < |s.workers| && s.workers[w].Busy?
      && s' == s.(workers := s.workers[w := Idle], log := s.log + [Checked(s.workers[w].entry, finding)],
                  scanned := s.scanned + 1,
                  inconsistent := s.inconsistent + if finding == Inconsistent then 1 else 0,
                  errors := s.errors + if finding == Errored then 1 else 0)
    case Leave(w) =>
      w < |s.workers| && s.workers[w].Idle? && s.producer == Done && s.queue == []
      && s' == s.(workers := s.workers[w := Gone])
    case Cancel =>
      !s.cancelled && s' == s.(cancelled := true)
  }

  ghost predicate Run(c: Setting, ss: seq<Scan>, acts: seq<Action>) {
    && |ss| == |acts| + 1
    && ss[0] == Start(c)
    && forall i | 0 <= i < |acts| :: Next(c, ss[i], acts[i], ss[i + 1])
  }

  ghost predicate Over(s: Scan) {
    s.producer == Done && forall w | 0 <= w < |s.workers| :: s.workers[w].Gone?
  }

  ghost predicate Blocked(c: Setting, s: Scan) {
    forall act, s' :: Next(c, s, act, s') ==> act.Cancel?
  }

  /** RunScan never returns: no step is left and it is not over. */
  ghost predicate Stuck(c: Setting, s: Scan) {
    Blocked(c, s) && !Over(s)
  }

  // ---------- Counting ----------

  function Held(w: Worker): nat {
    if w.Took? || w.Busy? then 1 else 0
  }

  function HasGone(w: Worker): nat {
    if w.Gone? then 1 else 0
  }

  function AllHeld(workers: seq<Worker>): nat {
    Sum(workers, Held)
  }

  function AllGone(workers: seq<Worker>): nat {
    Sum(workers, HasGone)
  }

  lemma CountsUpdate(workers: seq<Worker>, w: nat, x: Worker)
    requires w < |workers|
    ensures AllHeld(workers[w := x]) + Held(workers[w]) == AllHeld(workers) + Held(x)
    ensures AllGone(workers[w := x]) + HasGone(workers[w]) == AllGone(workers) + HasGone(x)
  {
    SumUpdate(workers, w, x, Held);
    SumUpdate(workers, w, x, HasGone);
  }

  lemma CountsAllGone(workers: seq<Worker>)
    requires forall w | 0 <= w < |workers| :: workers[w].Gone?
    ensures AllGone(workers) == |workers| && AllHeld(workers) == 0
  {
    SumOfSame(workers, Held, 0);
    SumOfSame(workers, HasGone, 1);
  }

  lemma CountsAllIdle(workers: seq<Worker>)
    requires forall w | 0 <= w < |workers| :: workers[w].Idle?
    ensures AllGone(workers) == 0 && AllHeld(workers) == 0
  {
    SumOfSame(workers, Held, 0);
    SumOfSame(workers, HasGone, 0);
  }

  /** How many log entries carry this finding. */
  function Count(log: seq<Checked>, finding: Finding): nat {
    Sum(log, With(finding))
  }

  function With(finding: Finding): Checked -> nat {
    (x: Checked) => if x.finding == finding then 1 else 0
  }

  lemma CountsOfMore(log: seq<Checked>, x: Checked)
    ensures forall finding :: Count(log + [x], finding) == Count(log, finding) + if x.finding == finding then 1 else 0
  {
    forall finding
      ensures Count(log + [x], finding) == Count(log, finding) + if x.finding == finding then 1 else 0
    {
      SumAppend(log, x, With(finding));
    }
  }

  ghost predicate Inv(c: Setting, s: Scan) {
    && |s.workers| == c.workers && |s.queue| <= c.capacity
    && s.next <= c.entries && (s.producer == Sending ==> s.next < c.entries)
    && (s.producer == Done ==> s.next == c.entries || s.cancelled)
    && s.next == |s.queue| + AllHeld(s.workers) + |s.log| + s.dropped
    && (!s.cancelled ==> s.dropped == 0)
    && s.dropped <= AllGone(s.workers)
    && (s.producer != Done ==> AllGone(s.workers) == s.dropped)
    && (AllGone(s.workers) > s.dropped ==> s.queue == [])
    && s.scanned == |s.log| == Count(s.log, Matching) + s.inconsistent + s.errors
    && s.inconsistent == Count(s.log, Inconsistent) && s.errors == Count(s.log, Errored)
  }

  lemma NextKeepsInv(c: Setting, s: Scan, act: Action, s': Scan)
    requires Inv(c, s) && Next(c, s, act, s')
    ensures Inv(c, s')
  {
    if act.Take? || act.Check? || act.Finish? || act.Leave? {
      CountsUpdate(s.workers, act.w, s'.workers[act.w]);
    }
    if act.Finish? {
      CountsOfMore(s.log, s'.log[|s.log|]);
    }
    hide AllHeld, AllGone, Count;
  }

  lemma {:induction false} RunKeepsInv(c: Setting, ss: seq<Scan>, acts: seq<Action>, i: nat)
    requires Run(c, ss, acts) && i < |ss|
    ensures Inv(c, ss[i])
  {
    if i == 0 {
      CountsAllIdle(Start(c).workers);
    } else {
      RunKeepsInv(c, ss, acts, i - 1);
      NextKeepsInv(c, ss[i - 1], acts[i - 1], ss[i]);
    }
  }

  // ---------- Each entry once ----------

  /** The entry a worker has in hand. */
  function InHand(w: Worker): Option<nat> {
    if w.Took? || w.Busy? then Some(w.entry) else None
  }

  /** The entry that was checked. */
  function Logged(x: Checked): Option<nat> {
    Some(x.entry)
  }

  function Times(log: seq<Checked>, entry: nat): nat {
    Occurrences(log, Logged, entry)
  }

  /** Where an entry is; one dropped at a cancellation is nowhere. */
  function Places(s: Scan, entry: nat): nat {
    Occurrences(s.queue, Itself, entry) + Occurrences(s.workers, InHand, entry) + Times(s.log, entry)
  }

  lemma PlacesStep(c: Setting, s: Scan, act: Action, s': Scan, entry: nat)
    requires Next(c, s, act, s')
    ensures Places(s', entry) <= Places(s, entry) + if act.Send? && entry == s.next then 1 else 0
    ensures !s.cancelled ==> Places(s', entry) == Places(s, entry) + if act.Send? && entry == s.next then 1 else 0
  {
    match act {
      case Take(w) =>
        OccurrencesUpdate(s.workers, w, s'.workers[w], InHand, entry);
        QueueHead(s.queue, entry);
        assert InHand(s'.workers[w]) == Some(s.queue[0]);
      case Check(w) => OccurrencesUpdate(s.workers, w, s'.workers[w], InHand, entry);
      case Finish(w, _) =>
        OccurrencesUpdate(s.workers, w, Idle, InHand, entry);
        OccurrencesAppend(s.log, s'.log[|s.log|], Logged, entry);
        assert InHand(s.workers[w]) == Some(s.workers[w].entry) == Logged(s'.log[|s.log|]);
      case Leave(w) => OccurrencesUpdate(s.workers, w, Gone, InHand, entry);
      case Send =>
        OccurrencesAppend(s.queue, s.next, Itself, entry);
        assert Itself(s.next) == Some(s.next);
      case Look =>
      case Cancel =>
    }
  }

  lemma {:induction false} PlacesInRun(c: Setting, ss: seq<Scan>, acts: seq<Action>, i: nat, entry: nat)
    requires Run(c, ss, acts) && i < |ss|
    ensures Places(ss[i], entry) <= if entry < ss[i].next then 1 else 0
    ensures !ss[i].cancelled ==> Places(ss[i], entry) == if entry < ss[i].next then 1 else 0
  {
    if i == 0 {
      NoOccurrence(Start(c).workers, InHand, entry);
    } else {
      PlacesInRun(c, ss, acts, i - 1, entry);
      assert Next(c, ss[i - 1], acts[i - 1], ss[i]);
      PlacesStep(c, ss[i - 1], acts[i - 1], ss[i], entry);
    }
  }

  // ---------- Where runs end ----------

  lemma BlockedStates(c: Setting, s: Scan)
    requires Inv(c, s) && Blocked(c, s) && c.capacity > 0
    ensures forall w | 0 <= w < |s.workers| :: s.workers[w].Gone?
    ensures s.producer != Done ==> s.producer == Sending && |s.queue| == c.capacity
  {
    ProducerCanGoOn(c, s);
    if w :| 0 <= w < |s.workers| && !s.workers[w].Gone? {
      WorkerCanGoOn(c, s, w);
    }
  }

  lemma ProducerCanGoOn(c: Setting, s: Scan)
    requires Inv(c, s) && Blocked(c, s)
    ensures s.producer != Done ==> s.producer == Sending && |s.queue| == c.capacity
  {
    if s.producer == Looking {
      assert Next(c, s, Look, s.(producer := if s.next == c.entries || s.cancelled then Done else Sending));
    } else if s.producer == Sending && |s.queue| < c.capacity {
      assert Next(c, s, Send, s.(producer := Looking, next := s.next + 1, queue := s.queue + [s.next]));
    }
  }

  lemma WorkerCanGoOn(c: Setting, s: Scan, w: nat)
    requires w < |s.workers| && !s.workers[w].Gone?
    requires s.producer == Done || |s.queue| > 0
    ensures !Blocked(c, s)
  {
    var worker := s.workers[w];
    var act, after :=
      if worker.Took? then Check(w) else if worker.Busy? then Finish(w, Matching)
      else if s.queue != [] then Take(w) else Leave(w),
      if worker.Took? && s.cancelled then s.(workers := s.workers[w := Gone], dropped := s.dropped + 1)
      else if worker.Took? then s.(workers := s.workers[w := Busy(worker.entry)])
      else if worker.Busy? then
        s.(workers := s.workers[w := Idle], log := s.log + [Checked(worker.entry, Matching)], scanned := s.scanned + 1)
      else if s.queue != [] then s.(queue := s.queue[1..], workers := s.workers[w := Took(s.queue[0])])
      else s.(workers := s.workers[w := Gone]);
    assert Next(c, s, act, after) && !act.Cancel?;
  }

  /**
    Without a cancellation no interleaving deadlocks. A scan that can go no further is over, has
    checked every entry in scope exactly once, and its counters split the entries into matching,
    inconsistent and errored.
   */
  lemma ScanChecksEverything(c: Setting, ss: seq<Scan>, acts: seq<Action>)
    requires Run(c, ss, acts) && c.capacity > 0 && c.workers > 0
    requires Blocked(c, ss[|acts|]) && !ss[|acts|].cancelled
    ensures var s := ss[|acts|];
      && Over(s)
      && (forall entry: nat :: Times(s.log, entry) == if entry < c.entries then 1 else 0)
      && s.scanned == c.entries == Count(s.log, Matching) + s.inconsistent + s.errors
      && s.inconsistent == Count(s.log, Inconsistent) && s.errors == Count(s.log, Errored)
  {
    var s := ss[|acts|];
    RunKeepsInv(c, ss, acts, |acts|);
    BlockedStates(c, s);
    CountsAllGone(s.workers);
    forall entry: nat
      ensures Times(s.log, entry) == if entry < c.entries then 1 else 0
    {
      PlacesInRun(c, ss, acts, |acts|, entry);
      NoOccurrence(s.workers, InHand, entry);
    }
  }

  // ---------- What the counters count ----------

  function EntriesIn(log: seq<Checked>): set<nat> {
    set x | x in log :: x.entry
  }

  lemma TimesUnfolds(log: seq<Checked>, entry: nat)
    requires log != []
    ensures Times(log, entry) == Times(log[1..], entry) + if log[0].entry == entry then 1 else 0
  {
    assert Logged(log[0]) == Some(log[0].entry);
    assert IsAbout(Logged, entry)(log[0]) == if log[0].entry == entry then 1 else 0;
  }

  lemma CountUnfolds(log: seq<Checked>, finding: Finding)
    requires log != []
    ensures Count(log, finding) == Count(log[1..], finding) + if log[0].finding == finding then 1 else 0
  {
  }

  lemma IsLogged(log: seq<Checked>, entry: nat)
    ensures Times(log, entry) > 0 <==> entry in EntriesIn(log)
  {
    if Times(log, entry) > 0 {
      var i := Position(log, Logged, entry);
      assert log[i] in log;
    }
    if x :| x in log && x.entry == entry {
      var i :| 0 <= i < |log| && log[i] == x;
      OccursAt(log, Logged, entry, i);
    }
  }

  ghost predicate NoneTwice(log: seq<Checked>) {
    forall entry: nat :: Times(log, entry) <= 1
  }

  lemma RestIsApart(log: seq<Checked>)
    requires log != [] && NoneTwice(log)
    ensures NoneTwice(log[1..]) && log[0].entry !in EntriesIn(log[1..])
    ensures EntriesIn(log) == EntriesIn(log[1..]) + {log[0].entry}
  {
    var rest, entry := log[1..], log[0].entry;
    hide Times, EntriesIn;
    forall e: nat
      ensures Times(rest, e) <= 1
    {
      TimesUnfolds(log, e);
      assert Times(log, e) <= 1;
    }
    TimesUnfolds(log, entry);
    assert Times(log, entry) <= 1;
    IsLogged(rest, entry);
    forall e: nat
      ensures e in EntriesIn(log) <==> e in EntriesIn(rest) || e == entry
    {
      IsLogged(log, e);
      IsLogged(rest, e);
      TimesUnfolds(log, e);
    }
  }

  /** The entries with this finding, where f tells each one's. */
  function Found(log: seq<Checked>, f: nat -> Finding, finding: Finding): set<nat> {
    set e | e in EntriesIn(log) && f(e) == finding
  }

  lemma FoundUnfolds(log: seq<Checked>, f: nat -> Finding, finding: Finding)
    requires log != [] && NoneTwice(log)
    ensures |Found(log, f, finding)|
         == |Found(log[1..], f, finding)| + if f(log[0].entry) == finding then 1 else 0
  {
    RestIsApart(log);
    hide NoneTwice, EntriesIn;
    var e := log[0].entry;
    var before := Found(log[1..], f, finding);
    if f(e) == finding {
      assert Found(log, f, finding) == before + {e} && e !in before;
    } else {
      assert Found(log, f, finding) == before;
    }
  }

  lemma {:induction false} CountIsSize(log: seq<Checked>, f: nat -> Finding, finding: Finding)
    requires NoneTwice(log) && forall x | x in log :: x.finding == f(x.entry)
    ensures Count(log, finding) == |Found(log, f, finding)|
  {
    if log == [] {
      assert Found(log, f, finding) == {};
    } else {
      RestIsApart(log);
      CountUnfolds(log, finding);
      FoundUnfolds(log, f, finding);
      assert log[0] in log;
      hide Count, Found, EntriesIn, NoneTwice;
      CountIsSize(log[1..], f, finding);
    }
  }

  lemma AllLogged(log: seq<Checked>, n: nat)
    requires forall entry: nat :: Times(log, entry) == if entry < n then 1 else 0
    ensures NoneTwice(log) && forall e: nat :: e in EntriesIn(log) <==> e < n
    ensures forall x | x in log :: x.entry < n
  {
    hide Times;
    forall e: nat
      ensures e in EntriesIn(log) <==> e < n
    {
      IsLogged(log, e);
    }
    forall x | x in log
      ensures x.entry < n
    {
      assert x.entry in EntriesIn(log);
    }
  }

  /** However the scan is cancelled, no entry is checked twice. */
  lemma NothingIsCheckedTwice(c: Setting, ss: seq<Scan>, acts: seq<Action>, i: nat, entry: nat)
    requires Run(c, ss, acts) && i < |ss|
    ensures Times(ss[i].log, entry) <= 1
  {
    PlacesInRun(c, ss, acts, i, entry);
  }

  // ---------- Termination ----------

  function Burden(w: Worker): nat {
    match w
    case Idle => 1
    case Took(_) => 3
    case Busy(_) => 2
    case Gone => 0
  }

  function Burdens(workers: seq<Worker>): nat {
    Sum(workers, Burden)
  }

  /** The steps that can still be taken. */
  function Measure(c: Setting, s: Scan): int {
    5 * (c.entries - s.next) + 3 * |s.queue| + Burdens(s.workers)
      + (if s.producer == Looking then 1 else 0) + (if s.cancelled then 0 else 1)
  }

  lemma EveryStepCounts(c: Setting, s: Scan, act: Action, s': Scan)
    requires Next(c, s, act, s')
    ensures Measure(c, s') < Measure(c, s)
  {
    if act.Take? || act.Check? || act.Finish? || act.Leave? {
      SumUpdate(s.workers, act.w, s'.workers[act.w], Burden);
    }
  }

  /** Every interleaving comes to an end: no run is longer than this. */
  lemma {:induction false} RunsEnd(c: Setting, ss: seq<Scan>, acts: seq<Action>)
    requires Run(c, ss, acts)
    ensures 0 <= Measure(c, ss[|acts|]) && |acts| + Measure(c, ss[|acts|]) <= 5 * c.entries + c.workers + 2
  {
    assert ss[|acts|].next <= c.entries by {
      RunKeepsInv(c, ss, acts, |acts|);
    }
    hide Inv, Measure;
    if acts == [] {
      StartMeasure(c);
    } else {
      var k := |acts| - 1;
      assert Run(c, ss[..k + 1], acts[..k]);
      RunsEnd(c, ss[..k + 1], acts[..k]);
      EveryStepCounts(c, ss[k], acts[k], ss[k + 1]);
    }
    MeasureIsNat(c, ss[|acts|]);
  }

  lemma MeasureIsNat(c: Setting, s: Scan)
    requires s.next <= c.entries
    ensures 0 <= Measure(c, s)
  {
  }

  lemma StartMeasure(c: Setting)
    ensures Measure(c, Start(c)) == 5 * c.entries + c.workers + 2
  {
    SumOfSame(Start(c).workers, Burden, 1);
  }

  // ---------- When a cancelled scan hangs ----------

  /** A scan that hangs has been cancelled, filled its queue, and lost an entry to each worker. */
  lemma StuckNeedsManyEntries(c: Setting, ss: seq<Scan>, acts: seq<Action>)
    requires Run(c, ss, acts) && c.capacity > 0 && c.workers > 0 && Stuck(c, ss[|acts|])
    ensures ss[|acts|].cancelled && c.entries > c.capacity + c.workers
  {
    var s := ss[|acts|];
    RunKeepsInv(c, ss, acts, |acts|);
    BlockedStates(c, s);
    CountsAllGone(s.workers);
  }

  /** The first j workers have taken an entry each. */
  function Taken(c: Setting, j: nat): Scan
    requires j <= c.workers
  {
    Scan(j, Looking, [], false, seq(c.workers, i requires 0 <= i => if i < j then Took(i) else Idle), [], 0, 0, 0, 0)
  }

  /** They all have, and m more entries are waiting. */
  function Filled(c: Setting, m: nat): Scan {
    Scan(c.workers + m, Looking, seq(m, i => c.workers + i), false,
         seq(c.workers, i requires 0 <= i => Took(i)), [], 0, 0, 0, 0)
  }

  /** The producer waits to send one more, the scan is cancelled, and the first j workers have noticed. */
  function Hanging(c: Setting, j: nat): Scan
    requires j <= c.workers
  {
    Filled(c, c.capacity).(producer := Sending, cancelled := true, dropped := j,
      workers := seq(c.workers, i requires 0 <= i => if i < j then Gone else Took(i)))
  }

  ghost predicate Reachable(c: Setting, s: Scan) {
    exists ss, acts :: Run(c, ss, acts) && ss[|acts|] == s
  }

  lemma OneStep(c: Setting, s: Scan, act: Action, s': Scan)
    requires Reachable(c, s) && Next(c, s, act, s')
    ensures Reachable(c, s')
  {
    var ss, acts :| Run(c, ss, acts) && ss[|acts|] == s;
    var more, steps := ss + [s'], acts + [act];
    forall i | 0 <= i < |steps|
      ensures Next(c, more[i], steps[i], more[i + 1])
    {
      if i < |acts| {
        assert more[i] == ss[i] && more[i + 1] == ss[i + 1] && steps[i] == acts[i];
      }
    }
    assert Run(c, more, steps) && more[|steps|] == s';
  }

  lemma {:induction false} TakenIsReachable(c: Setting, j: nat)
    requires c.capacity > 0 && j <= c.workers < c.entries
    ensures Reachable(c, Taken(c, j))
  {
    if j == 0 {
      assert Taken(c, 0) == Start(c);
      assert Run(c, [Start(c)], []);
    } else {
      TakenIsReachable(c, j - 1);
      var s := Taken(c, j - 1);
      var s1 := s.(producer := Sending);
      var s2 := s.(next := j, queue := [j - 1]);
      OneStep(c, s, Look, s1);
      OneStep(c, s1, Send, s2);
      assert Taken(c, j).workers == s.workers[j - 1 := Took(j - 1)];
      OneStep(c, s2, Take(j - 1), Taken(c, j));
    }
  }

  lemma {:induction false} FilledIsReachable(c: Setting, m: nat)
    requires c.capacity > 0 && m <= c.capacity && c.entries > c.capacity + c.workers
    ensures Reachable(c, Filled(c, m))
  {
    if m == 0 {
      TakenIsReachable(c, c.workers);
      assert Filled(c, 0) == Taken(c, c.workers);
    } else {
      FilledIsReachable(c, m - 1);
      var s := Filled(c, m - 1);
      OneStep(c, s, Look, s.(producer := Sending));
      assert Filled(c, m).queue == s.queue + [s.next];
      OneStep(c, s.(producer := Sending), Send, Filled(c, m));
    }
  }

  lemma {:induction false} HangingIsReachable(c: Setting, j: nat)
    requires c.capacity > 0 && j <= c.workers && c.entries > c.capacity + c.workers
    ensures Reachable(c, Hanging(c, j))
  {
    if j == 0 {
      FilledIsReachable(c, c.capacity);
      var s := Filled(c, c.capacity);
      OneStep(c, s, Look, s.(producer := Sending));
      assert Hanging(c, 0).workers == s.workers;
      OneStep(c, s.(producer := Sending), Cancel, Hanging(c, 0));
    } else {
      HangingIsReachable(c, j - 1);
      var s := Hanging(c, j - 1);
      assert Hanging(c, j).workers == s.workers[j - 1 := Gone];
      OneStep(c, s, Check(j - 1), Hanging(c, j));
    }
  }

  /**
    A scan can hang exactly when there are more entries than the queue and the workers hold together:
    the workers take an entry each, the queue fills, the producer waits to send one more, and the
    cancellation comes before any worker has looked at the context.
   */
  lemma ScanCanHangIff(c: Setting)
    requires c.capacity > 0 && c.workers > 0
    ensures (exists s :: Reachable(c, s) && Stuck(c, s)) <==> c.entries > c.capacity + c.workers
  {
    if s :| Reachable(c, s) && Stuck(c, s) {
      var ss, acts :| Run(c, ss, acts) && ss[|acts|] == s;
      StuckNeedsManyEntries(c, ss, acts);
    }
    if c.entries > c.capacity + c.workers {
      HangingIsReachable(c, c.workers);
      var s := Hanging(c, c.workers);
      assert Stuck(c, s);
    }
  }
}
