/**
  The upload pool of a backup: one walk feeding a bounded queue, and workers that each open their
  own connection before they take anything from it. The steps of all of them interleave freely.
 */
module WorkerPool {
  import opened Basics
  import opened Sums

  /** What processFile answers for one item. */
  datatype Answer = Answer(n: nat, bytes: int, hadErr: bool)

  datatype Worker = Connecting | Idle | Busy(item: nat) | Gone(connected: bool)

  datatype Handled = Handled(item: nat, answer: Answer)

  /** next items have been enqueued so far; log and the totals are what the workers reported. */
  datatype Pool = Pool(next: nat, queue: seq<nat>, closed: bool, cancelled: bool, workers: seq<Worker>,
                       log: seq<Handled>, files: nat, bytes: int, errs: nat)

  /**
    The number of items the walk finds, the number of workers, the capacity of the queue, and the
    items whose processFile call never returns (a compressed upload whose link gives out early).
   */
  datatype Setting = Setting(items: nat, workers: nat, capacity: nat, hangs: set<nat>)

  datatype Action =
    | Connect(w: nat, ok: bool)
    | Enqueue
    | Close
    | Take(w: nat)
    | Finish(w: nat, answer: Answer)
    | Leave(w: nat)
    | Cancel

  function Start(c: Setting): Pool {
    Pool(0, [], false, false, seq(c.workers, i => Connecting), [], 0, 0, 0)
  }

  ghost predicate Next(c: Setting, s: Pool, act: Action, s': Pool) {
    match act
    case Connect(w, ok) =>
      w < |s.workers| && s.workers[w].Connecting?
      && s' == s.(workers := s.workers[w := if ok then Idle else Gone(false)])
    case Enqueue =>
      !s.closed && s.next < c.items && |s.queue| < c.capacity
      && s' == s.(next := s.next + 1, queue := s.queue + [s.next])
    case Close =>
      !s.closed && (s.next == c.items || s.cancelled) && s' == s.(closed := true)
    case Take(w) =>
      w < |s.workers| && s.workers[w].Idle? && s.queue != []
      && s' == s.(queue := s.queue[1..], workers := s.workers[w := Busy(s.queue[0])])
    case Finish(w, answer) =>
      w < |s.workers| && s.workers[w].Busy? && s.workers[w].item !in c.hangs
      && s' == s.(workers := s.workers[w := Idle], log := s.log + [Handled(s.workers[w].item, answer)],
                  files := if answer.n > 0 then s.files + answer.n else s.files,
                  bytes := if answer.n > 0 then s.bytes + answer.bytes else s.bytes,
                  errs := if answer.hadErr then s.errs + 1 else s.errs)
    case Leave(w) =>
      w < |s.workers| && s.workers[w].Idle? && s.closed && s.queue == []
      && s' == s.(workers := s.workers[w := Gone(true)])
    case Cancel =>
      !s.cancelled && s' == s.(cancelled := true)
  }

  ghost predicate Run(c: Setting, ss: seq<Pool>, acts: seq<Action>) {
    && |ss| == |acts| + 1
    && ss[0] == Start(c)
    && forall i | 0 <= i < |acts| :: Next(c, ss[i], acts[i], ss[i + 1])
  }

  /** The queue is closed and every worker has returned: wg.Wait is over. */
  ghost predicate Over(s: Pool) {
    s.closed && forall w | 0 <= w < |s.workers| :: s.workers[w].Gone?
  }

  /** No step but a cancellation can be taken. */
  ghost predicate Blocked(c: Setting, s: Pool) {
    forall act, s' :: Next(c, s, act, s') ==> act.Cancel?
  }

  // ---------- Where the items are ----------

  /** The item a worker has in hand. */
  function InHand(w: Worker): Option<nat> {
    if w.Busy? then Some(w.item) else None
  }

  /** The item that was handed to processFile and came back. */
  function Logged(h: Handled): Option<nat> {
    Some(h.item)
  }

  function Times(log: seq<Handled>, item: nat): nat {
    Occurrences(log, Logged, item)
  }

  function Places(s: Pool, item: nat): nat {
    Occurrences(s.queue, Itself, item) + Occurrences(s.workers, InHand, item) + Times(s.log, item)
  }

  function FilesIn(h: Handled): nat {
    h.answer.n
  }

  function ErrorsIn(h: Handled): nat {
    if h.answer.hadErr then 1 else 0
  }

  function Files(log: seq<Handled>): nat {
    Sum(log, FilesIn)
  }

  function BytesOf(log: seq<Handled>): int {
    if log == [] then 0
    else BytesOf(log[..|log| - 1]) + if log[|log| - 1].answer.n > 0 then log[|log| - 1].answer.bytes else 0
  }

  function Errors(log: seq<Handled>): nat {
    Sum(log, ErrorsIn)
  }

  lemma TotalsOfMore(log: seq<Handled>, h: Handled)
    ensures Files(log + [h]) == Files(log) + h.answer.n
    ensures BytesOf(log + [h]) == BytesOf(log) + if h.answer.n > 0 then h.answer.bytes else 0
    ensures Errors(log + [h]) == Errors(log) + if h.answer.hadErr then 1 else 0
  {
    SumAppend(log, h, FilesIn);
    SumAppend(log, h, ErrorsIn);
    assert (log + [h])[..|log|] == log;
  }

  /** Every enqueued item is in exactly one place, once. */
  ghost predicate EachOnce(s: Pool) {
    forall item: nat :: Places(s, item) == if item < s.next then 1 else 0
  }

  ghost predicate TotalsAdd(s: Pool) {
    s.files == Files(s.log) && s.bytes == BytesOf(s.log) && s.errs == Errors(s.log)
  }

  ghost predicate Phases(c: Setting, s: Pool) {
    && s.next <= c.items && |s.workers| == c.workers && |s.queue| <= c.capacity
    && (s.closed ==> s.next == c.items || s.cancelled)
    && ((exists w :: 0 <= w < |s.workers| && s.workers[w] == Gone(true)) ==> s.closed && s.queue == [])
    && ((forall w | 0 <= w < |s.workers| :: s.workers[w].Connecting? || s.workers[w] == Gone(false)) ==> s.log == [])
    && (forall i | 0 <= i < |s.log| :: s.log[i].item !in c.hangs)
  }

  ghost predicate Inv(c: Setting, s: Pool) {
    EachOnce(s) && TotalsAdd(s) && Phases(c, s)
  }

  lemma StartIsGood(c: Setting)
    ensures Inv(c, Start(c))
  {
    forall item: nat
      ensures Occurrences(Start(c).workers, InHand, item) == 0
    {
      NoOccurrence(Start(c).workers, InHand, item);
    }
  }

  lemma NextKeepsItems(c: Setting, s: Pool, act: Action, s': Pool)
    requires EachOnce(s) && Next(c, s, act, s')
    ensures EachOnce(s')
  {
    forall item: nat
      ensures Places(s', item) == if item < s'.next then 1 else 0
    {
      ItemStep(c, s, act, s', item);
    }
  }

  lemma ItemStep(c: Setting, s: Pool, act: Action, s': Pool, item: nat)
    requires Next(c, s, act, s')
    ensures Places(s', item) == Places(s, item) + if act.Enqueue? && item == s.next then 1 else 0
  {
    match act {
      case Connect(w, ok) => OccurrencesUpdate(s.workers, w, s'.workers[w], InHand, item);
      case Take(w) =>
        OccurrencesUpdate(s.workers, w, s'.workers[w], InHand, item);
        QueueHead(s.queue, item);
        assert InHand(s'.workers[w]) == Some(s.queue[0]);
      case Finish(w, answer) =>
        OccurrencesUpdate(s.workers, w, Idle, InHand, item);
        OccurrencesAppend(s.log, s'.log[|s.log|], Logged, item);
        assert InHand(s.workers[w]) == Some(s.workers[w].item) == Logged(s'.log[|s.log|]);
      case Leave(w) => OccurrencesUpdate(s.workers, w, Gone(true), InHand, item);
      case Enqueue =>
        OccurrencesAppend(s.queue, s.next, Itself, item);
        assert Itself(s.next) == Some(s.next);
      case Close =>
      case Cancel =>
    }
  }

  lemma NextKeepsTotals(c: Setting, s: Pool, act: Action, s': Pool)
    requires TotalsAdd(s) && Next(c, s, act, s')
    ensures TotalsAdd(s')
  {
    if act.Finish? {
      TotalsOfMore(s.log, s'.log[|s.log|]);
    }
  }

  lemma NextKeepsPhases(c: Setting, s: Pool, act: Action, s': Pool)
    requires Phases(c, s) && Next(c, s, act, s')
    ensures Phases(c, s')
  {
    if act.Finish? {
      assert s'.workers[act.w] == Idle;
    } else if act.Take? {
      assert s'.workers[act.w].Busy? && s.workers[act.w].Idle?;
    } else if act.Leave? {
      assert s'.workers[act.w] == Gone(true);
      assert !(s.workers[act.w].Connecting? || s.workers[act.w] == Gone(false));
    }
    forall w | 0 <= w < |s'.workers| && s'.workers[w] == Gone(true)
      ensures s'.closed && s'.queue == []
    {
      assert act.Leave? || s.workers[w] == Gone(true);
    }
    if s'.log != [] {
      var w := if act.Finish? then act.w else WorkedBefore(s);
      assert !s'.workers[w].Connecting? && s'.workers[w] != Gone(false);
    }
  }

  ghost function WorkedBefore(s: Pool): (w: nat)
    requires !forall w | 0 <= w < |s.workers| :: s.workers[w].Connecting? || s.workers[w] == Gone(false)
    ensures w < |s.workers| && !s.workers[w].Connecting? && s.workers[w] != Gone(false)
  {
    var w :| 0 <= w < |s.workers| && !s.workers[w].Connecting? && s.workers[w] != Gone(false);
    w
  }

  lemma NextKeepsInv(c: Setting, s: Pool, act: Action, s': Pool)
    requires Inv(c, s) && Next(c, s, act, s')
    ensures Inv(c, s')
  {
    hide Next, EachOnce, TotalsAdd, Phases;
    NextKeepsItems(c, s, act, s');
    NextKeepsTotals(c, s, act, s');
    NextKeepsPhases(c, s, act, s');
  }

  lemma {:induction false} RunKeepsInv(c: Setting, ss: seq<Pool>, acts: seq<Action>, i: nat)
    requires Run(c, ss, acts) && i < |ss|
    ensures Inv(c, ss[i])
  {
    if i == 0 {
      StartIsGood(c);
    } else {
      RunKeepsInv(c, ss, acts, i - 1);
      NextKeepsInv(c, ss[i - 1], acts[i - 1], ss[i]);
    }
  }

  // ---------- Termination and deadlock ----------

  function Burden(w: Worker): nat {
    match w
    case Connecting => 2
    case Idle => 1
    case Busy(_) => 2
    case Gone(_) => 0
  }

  function Burdens(workers: seq<Worker>): nat {
    Sum(workers, Burden)
  }

  /** The steps that can still be taken. */
  function Measure(c: Setting, s: Pool): nat
    requires s.next <= c.items
  {
    3 * (c.items - s.next) + 2 * |s.queue| + Burdens(s.workers)
      + (if s.closed then 0 else 1) + (if s.cancelled then 0 else 1)
  }

  lemma EveryStepCounts(c: Setting, s: Pool, act: Action, s': Pool)
    requires s.next <= c.items && Next(c, s, act, s')
    ensures s'.next <= c.items && Measure(c, s') < Measure(c, s)
  {
    if act.Connect? || act.Take? || act.Finish? || act.Leave? {
      SumUpdate(s.workers, act.w, s'.workers[act.w], Burden);
    }
  }

  /** Every interleaving comes to an end: no run is longer than this. */
  lemma {:induction false} RunsEnd(c: Setting, ss: seq<Pool>, acts: seq<Action>)
    requires Run(c, ss, acts)
    ensures ss[|acts|].next <= c.items && |acts| + Measure(c, ss[|acts|]) <= Measure(c, Start(c))
    ensures Measure(c, Start(c)) == 3 * c.items + 2 * c.workers + 2
  {
    SumOfSame(Start(c).workers, Burden, 2);
    if acts != [] {
      var k := |acts| - 1;
      assert Run(c, ss[..k + 1], acts[..k]);
      RunsEnd(c, ss[..k + 1], acts[..k]);
      EveryStepCounts(c, ss[k], acts[k], ss[k + 1]);
    }
  }

  /** Where a run that can take no further step has ended: only calls that never return are still out. */
  lemma BlockedStates(c: Setting, s: Pool)
    requires Inv(c, s) && Blocked(c, s) && c.capacity > 0
    ensures forall w | 0 <= w < |s.workers| ::
      s.workers[w].Gone? || (s.workers[w].Busy? && s.workers[w].item in c.hangs)
    ensures !s.closed ==> !s.cancelled && s.next < c.items && |s.queue| == c.capacity
  {
    if w :| 0 <= w < |s.workers| && !s.workers[w].Gone? && !(s.workers[w].Busy? && s.workers[w].item in c.hangs) {
      WorkerCanGoOn(c, s, w);
    }
    ProducerCanGoOn(c, s);
  }

  lemma ProducerCanGoOn(c: Setting, s: Pool)
    requires Phases(c, s) && Blocked(c, s)
    ensures !s.closed ==> !s.cancelled && s.next < c.items && |s.queue| == c.capacity
  {
    if !s.closed {
      if s.next == c.items || s.cancelled {
        assert Next(c, s, Close, s.(closed := true));
      } else if |s.queue| < c.capacity {
        assert Next(c, s, Enqueue, s.(next := s.next + 1, queue := s.queue + [s.next]));
      }
    }
  }

  lemma WorkerCanGoOn(c: Setting, s: Pool, w: nat)
    requires Phases(c, s) && w < |s.workers| && !s.workers[w].Gone? && c.capacity > 0
    requires s.workers[w].Busy? ==> s.workers[w].item !in c.hangs
    ensures !Blocked(c, s)
  {
    var worker := s.workers[w];
    var act, after :=
      if worker.Connecting? then Connect(w, true)
      else if worker.Busy? then Finish(w, Answer(0, 0, false))
      else if s.queue != [] then Take(w)
      else if s.closed then Leave(w)
      else if s.next == c.items then Close else Enqueue,
      if worker.Connecting? then s.(workers := s.workers[w := Idle])
      else if worker.Busy? then
        s.(workers := s.workers[w := Idle], log := s.log + [Handled(worker.item, Answer(0, 0, false))])
      else if s.queue != [] then s.(queue := s.queue[1..], workers := s.workers[w := Busy(s.queue[0])])
      else if s.closed then s.(workers := s.workers[w := Gone(true)])
      else if s.next == c.items then s.(closed := true)
      else s.(next := s.next + 1, queue := s.queue + [s.next]);
    assert Next(c, s, act, after) && !act.Cancel?;
  }

  /** A worker connected at some point of this state's past. */
  ghost predicate SomeConnected(s: Pool) {
    exists w :: 0 <= w < |s.workers| && !s.workers[w].Connecting? && s.workers[w] != Gone(false)
  }

  /** Some worker has an item in hand. */
  ghost predicate SomeBusy(s: Pool) {
    exists w :: 0 <= w < |s.workers| && s.workers[w].Busy?
  }

  /**
    Where every run with at least one connected worker ends. It is over exactly when no worker waits
    for a call that never returns. Whether it is over or not, every enqueued item is in one place,
    so none is handed over twice, and the totals are the sums of the answers. When it is over, every
    enqueued item has been handed to processFile once and come back.
   */
  lemma PoolDoesItsWork(c: Setting, ss: seq<Pool>, acts: seq<Action>)
    requires Run(c, ss, acts) && c.capacity > 0
    requires Blocked(c, ss[|acts|]) && SomeConnected(ss[|acts|])
    ensures var s := ss[|acts|];
      && (Over(s) <==> !SomeBusy(s))
      && (forall w | 0 <= w < |s.workers| && s.workers[w].Busy? :: s.workers[w].item in c.hangs)
      && (forall item: nat :: Places(s, item) == if item < s.next then 1 else 0)
      && (Over(s) ==> forall item: nat :: Times(s.log, item) == if item < s.next then 1 else 0)
      && (Over(s) && !s.cancelled ==> s.next == c.items)
      && s.files == Files(s.log) && s.bytes == BytesOf(s.log) && s.errs == Errors(s.log)
  {
    var s := ss[|acts|];
    RunKeepsInv(c, ss, acts, |acts|);
    BlockedStates(c, s);
    if !SomeBusy(s) {
      var w :| 0 <= w < |s.workers| && !s.workers[w].Connecting? && s.workers[w] != Gone(false);
      assert s.workers[w] == Gone(true);
      forall item: nat
        ensures Times(s.log, item) == if item < s.next then 1 else 0
      {
        NoOccurrence(s.workers, InHand, item);
        assert Places(s, item) == if item < s.next then 1 else 0;
      }
    }
  }

  /** Without a cancellation: the run is over exactly when no item of the walk hangs. */
  lemma RunIsOverIff(c: Setting, ss: seq<Pool>, acts: seq<Action>)
    requires Run(c, ss, acts) && c.capacity > 0
    requires Blocked(c, ss[|acts|]) && SomeConnected(ss[|acts|]) && !ss[|acts|].cancelled
    ensures Over(ss[|acts|]) <==> forall item | item in c.hangs :: item >= c.items
  {
    var s := ss[|acts|];
    RunKeepsInv(c, ss, acts, |acts|);
    PoolDoesItsWork(c, ss, acts);
    if w :| 0 <= w < |s.workers| && s.workers[w].Busy? {
      OccursAt(s.workers, InHand, s.workers[w].item, w);
      assert Places(s, s.workers[w].item) > 0;
    }
    if Over(s) {
      forall item | item in c.hangs
        ensures item >= c.items
      {
        if Times(s.log, item) > 0 {
          var i := Position(s.log, Logged, item);
        }
      }
    }
  }

  /**
    When no worker connects, nothing is handed over. Without a cancellation the run then ends, without
    an error and without having handled anything, exactly when all items fit in the queue; otherwise
    the walk waits forever for room in it.
   */
  lemma NobodyConnects(c: Setting, ss: seq<Pool>, acts: seq<Action>)
    requires Run(c, ss, acts) && c.capacity > 0
    requires Blocked(c, ss[|acts|]) && !SomeConnected(ss[|acts|]) && !ss[|acts|].cancelled
    ensures var s := ss[|acts|];
      && s.log == [] && s.files == 0 && s.errs == 0
      && (Over(s) <==> c.items <= c.capacity)
  {
    var s := ss[|acts|];
    RunKeepsInv(c, ss, acts, |acts|);
    BlockedStates(c, s);
    assert forall w | 0 <= w < |s.workers| :: s.workers[w] == Gone(false);
    forall item: nat
      ensures Occurrences(s.queue, Itself, item) == if item < s.next then 1 else 0
    {
      NoOccurrence(s.workers, InHand, item);
      assert Places(s, item) == if item < s.next then 1 else 0;
    }
    QueueLength(s.queue, s.next);
  }

  // ---------- A run in which nobody connects ----------

  ghost predicate Reachable(c: Setting, s: Pool) {
    exists ss, acts :: Run(c, ss, acts) && ss[|acts|] == s
  }

  lemma OneStep(c: Setting, s: Pool, act: Action, s': Pool)
    requires Reachable(c, s) && Next(c, s, act, s')
    ensures Reachable(c, s')
  {
    var ss, acts :| Run(c, ss, acts) && ss[|acts|] == s;
    var ss', acts' := ss + [s'], acts + [act];
    forall i | 0 <= i < |acts'|
      ensures Next(c, ss'[i], acts'[i], ss'[i + 1])
    {
      if i < |acts| {
        assert Next(c, ss[i], acts[i], ss[i + 1]);
      }
    }
    assert Run(c, ss', acts') && ss'[|acts'|] == s';
  }

  /** The connections of the first j workers have failed. */
  function Refused(c: Setting, j: nat): Pool
    requires j <= c.workers
  {
    Start(c).(workers := seq(c.workers, i => if i < j then Gone(false) else Connecting))
  }

  /** Then m items have been enqueued. */
  function Waiting(c: Setting, m: nat): Pool {
    Refused(c, c.workers).(next := m, queue := seq(m, i => i))
  }

  lemma {:induction false} RefusedIsReachable(c: Setting, j: nat)
    requires j <= c.workers
    ensures Reachable(c, Refused(c, j))
  {
    if j == 0 {
      assert Refused(c, 0) == Start(c);
      assert Run(c, [Start(c)], []);
    } else {
      RefusedIsReachable(c, j - 1);
      var s := Refused(c, j - 1);
      assert Refused(c, j).workers == s.workers[j - 1 := Gone(false)];
      OneStep(c, s, Connect(j - 1, false), Refused(c, j));
    }
  }

  lemma {:induction false} WaitingIsReachable(c: Setting, m: nat)
    requires m <= c.capacity && m <= c.items
    ensures Reachable(c, Waiting(c, m))
  {
    if m == 0 {
      RefusedIsReachable(c, c.workers);
      assert Waiting(c, 0) == Refused(c, c.workers);
    } else {
      WaitingIsReachable(c, m - 1);
      var s := Waiting(c, m - 1);
      assert Waiting(c, m).queue == s.queue + [m - 1];
      OneStep(c, s, Enqueue, Waiting(c, m));
    }
  }

  /** Nobody has connected, nobody has cancelled, no step can be taken, and the run is not over. */
  ghost predicate WaitsForNobody(c: Setting, s: Pool) {
    Blocked(c, s) && !SomeConnected(s) && !s.cancelled && !Over(s)
  }

  /**
    A run without connections can wait forever exactly when there are more items than the queue holds:
    every connection fails and the walk fills the queue.
   */
  lemma NobodyConnectsCanHangIff(c: Setting)
    requires c.capacity > 0
    ensures (exists s :: Reachable(c, s) && WaitsForNobody(c, s)) <==> c.items > c.capacity
  {
    if s :| Reachable(c, s) && WaitsForNobody(c, s) {
      var ss, acts :| Run(c, ss, acts) && ss[|acts|] == s;
      NobodyConnects(c, ss, acts);
    }
    if c.items > c.capacity {
      WaitingIsReachable(c, c.capacity);
      assert WaitsForNobody(c, Waiting(c, c.capacity));
    }
  }
}
