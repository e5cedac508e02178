/** Sums over sequences, for counting what workers hold, queues contain and logs record. */
module Sums {
  import opened Basics

  function Sum<T>(s: seq<T>, f: T -> nat): nat {
    if s == [] then 0 else f(s[0]) + Sum(s[1..], f)
  }

  lemma {:induction false} SumUpdate<T>(s: seq<T>, i: nat, x: T, f: T -> nat)
    requires i < |s|
    ensures Sum(s[i := x], f) + f(s[i]) == Sum(s, f) + f(x)
  {
    var after := s[i := x];
    if i > 0 {
      SumUpdate(s[1..], i - 1, x, f);
      assert after[1..] == s[1..][i - 1 := x];
    } else {
      assert after[1..] == s[1..];
    }
  }

  lemma {:induction false} SumAppend<T>(s: seq<T>, x: T, f: T -> nat)
    ensures Sum(s + [x], f) == Sum(s, f) + f(x)
  {
    if s == [] {
      assert [] + [x] == [x];
    } else {
      assert (s + [x])[1..] == s[1..] + [x];
      SumAppend(s[1..], x, f);
    }
  }

  /** All terms are the same. */
  lemma {:induction false} SumOfSame<T>(s: seq<T>, f: T -> nat, n: nat)
    requires forall i | 0 <= i < |s| :: f(s[i]) == n
    ensures Sum(s, f) == n * |s|
  {
    if s != [] {
      SumOfSame(s[1..], f, n);
      assert n * |s| == n + n * |s[1..]|;
    }
  }

  // ---------- Where an item is ----------

  /** How many elements of s are about this item. */
  function Occurrences<T>(s: seq<T>, itemOf: T -> Option<nat>, item: nat): nat {
    Sum(s, IsAbout(itemOf, item))
  }

  function IsAbout<T>(itemOf: T -> Option<nat>, item: nat): T -> nat {
    x => if itemOf(x) == Some(item) then 1 else 0
  }

  /** An element of a queue is about itself. */
  function Itself(item: nat): Option<nat> {
    Some(item)
  }

  lemma OccurrencesAppend<T>(s: seq<T>, x: T, itemOf: T -> Option<nat>, item: nat)
    ensures Occurrences(s + [x], itemOf, item)
         == Occurrences(s, itemOf, item) + if itemOf(x) == Some(item) then 1 else 0
  {
    SumAppend(s, x, IsAbout(itemOf, item));
  }

  /** Element i gives way to x, which is about something else, or the other way round. */
  lemma OccurrencesUpdate<T>(s: seq<T>, i: nat, x: T, itemOf: T -> Option<nat>, item: nat)
    requires i < |s|
    ensures Occurrences(s[i := x], itemOf, item) + (if itemOf(s[i]) == Some(item) then 1 else 0)
         == Occurrences(s, itemOf, item) + if itemOf(x) == Some(item) then 1 else 0
  {
    SumUpdate(s, i, x, IsAbout(itemOf, item));
  }

  lemma QueueHead(queue: seq<nat>, item: nat)
    requires queue != []
    ensures Occurrences(queue, Itself, item)
         == (if queue[0] == item then 1 else 0) + Occurrences(queue[1..], Itself, item)
  {
    assert Itself(queue[0]) == Some(queue[0]);
  }

  lemma NoOccurrence<T>(s: seq<T>, itemOf: T -> Option<nat>, item: nat)
    requires forall i | 0 <= i < |s| :: itemOf(s[i]) != Some(item)
    ensures Occurrences(s, itemOf, item) == 0
  {
    SumOfSame(s, IsAbout(itemOf, item), 0);
  }

  lemma {:induction false} Position<T>(s: seq<T>, itemOf: T -> Option<nat>, item: nat) returns (i: nat)
    requires Occurrences(s, itemOf, item) > 0
    ensures i < |s| && itemOf(s[i]) == Some(item)
  {
    if itemOf(s[0]) == Some(item) {
      i := 0;
    } else {
      i := Position(s[1..], itemOf, item);
      i := i + 1;
    }
  }

  lemma {:induction false} OccursAt<T>(s: seq<T>, itemOf: T -> Option<nat>, item: nat, i: nat)
    requires i < |s| && itemOf(s[i]) == Some(item)
    ensures Occurrences(s, itemOf, item) > 0
  {
    if i > 0 {
      OccursAt(s[1..], itemOf, item, i - 1);
    }
  }

  lemma {:induction false} OccurrencesWithout(queue: seq<nat>, i: nat, item: nat)
    requires i < |queue|
    ensures Occurrences(queue[..i] + queue[i + 1..], Itself, item) + (if queue[i] == item then 1 else 0)
         == Occurrences(queue, Itself, item)
  {
    var rest := queue[..i] + queue[i + 1..];
    assert Itself(queue[0]) == Some(queue[0]);
    if i == 0 {
      assert rest == queue[1..];
    } else {
      assert rest[0] == queue[0] && rest[1..] == queue[1..][..i - 1] + queue[1..][i..];
      OccurrencesWithout(queue[1..], i - 1, item);
    }
  }

  /** A queue that holds each number below n once is n long. */
  lemma {:induction false} QueueLength(queue: seq<nat>, n: nat)
    requires forall item: nat :: Occurrences(queue, Itself, item) == if item < n then 1 else 0
    ensures |queue| == n
    decreases n
  {
    if n > 0 {
      var i := Position(queue, Itself, n - 1);
      var rest := queue[..i] + queue[i + 1..];
      forall item: nat
        ensures Occurrences(rest, Itself, item) == if item < n - 1 then 1 else 0
      {
        OccurrencesWithout(queue, i, item);
      }
      QueueLength(rest, n - 1);
    } else if queue != [] {
      OccursAt(queue, Itself, queue[0], 0);
    }
  }
}
