/** Values shared by every other module. */
module Basics {

  newtype byte = x: int | 0 <= x < 256

  type Bytes = seq<byte>

  datatype Option<+T> = None | Some(value: T)

  /** The part of s that fits in n elements. */
  function Clip<T>(s: seq<T>, n: nat): (c: seq<T>)
    ensures c <= s && |c| == if |s| <= n then |s| else n
  {
    if |s| <= n then s else s[..n]
  }

  /** Writing more to a sink that already took done, when done + more begins the whole text. */
  lemma ClipMore<T>(done: seq<T>, more: seq<T>, whole: seq<T>, room: nat)
    requires |done| <= room
    requires done + more <= whole
    requires |more| <= room - |done| ==> done + more == whole
    ensures done + Clip(more, room - |done|) == Clip(whole, room)
  {
  }

  lemma ClipFits<T>(s: seq<T>, room: nat)
    requires |s| <= room
    ensures Clip(s, room) == s
  {
  }

  lemma Regroup<T>(a: seq<T>, b: seq<T>, c: seq<T>)
    ensures (a + b) + c == a + (b + c)
  {
  }

  /** Byte-wise order of names and paths. */
  predicate NameLeq(a: string, b: string) {
    a == "" || (b != "" && (a[0] < b[0] || (a[0] == b[0] && NameLeq(a[1..], b[1..]))))
  }

  lemma {:induction false} NamesCompare(a: string, b: string)
    ensures NameLeq(a, b) || NameLeq(b, a)
  {
    if a != "" && b != "" {
      NamesCompare(a[1..], b[1..]);
    }
  }

  lemma {:induction false} NamesChain(a: string, b: string, c: string)
    requires NameLeq(a, b) && NameLeq(b, c)
    ensures NameLeq(a, c)
  {
    if a != "" && a[0] == b[0] == c[0] {
      NamesChain(a[1..], b[1..], c[1..]);
    }
  }

  /** a goes on from b's first i bytes with a smaller byte than b. */
  predicate FallsBehind(a: string, b: string, i: nat) {
    i < |a| && i < |b| && a[..i] == b[..i] && a[i] < b[i]
  }

  ghost predicate Before(a: string, b: string) {
    a <= b || exists i: nat :: FallsBehind(a, b, i)
  }

  /** A name comes before another when it begins it, or has the smaller byte where they first differ. */
  lemma {:induction false} NameLeqIff(a: string, b: string)
    ensures NameLeq(a, b) <==> Before(a, b)
  {
    if a != "" && b != "" && a[0] == b[0] {
      NameLeqIff(a[1..], b[1..]);
      TailsBefore(a, b);
    } else if a != "" && b != "" {
      if a[0] < b[0] {
        assert FallsBehind(a, b, 0);
      } else {
        StartsAhead(a, b);
      }
    }
  }

  lemma StartsAhead(a: string, b: string)
    requires a != "" && b != "" && a[0] > b[0]
    ensures !Before(a, b)
  {
    forall i: nat
      ensures !FallsBehind(a, b, i)
    {
      if 0 < i <= |a| && i <= |b| {
        assert a[..i][0] == a[0] && b[..i][0] == b[0];
      }
    }
  }

  lemma TailsBefore(a: string, b: string)
    requires a != "" && b != "" && a[0] == b[0]
    ensures Before(a, b) <==> Before(a[1..], b[1..])
  {
    assert a == [a[0]] + a[1..] && b == [b[0]] + b[1..];
    if i: nat :| FallsBehind(a, b, i) {
      assert i > 0;
      TailsFallBehind(a, b, i - 1);
    }
    if i: nat :| FallsBehind(a[1..], b[1..], i) {
      TailsFallBehind(a, b, i);
    }
    if a[1..] <= b[1..] {
      assert b == [b[0]] + a[1..] + b[1..][|a[1..]|..];
    }
  }

  lemma TailsFallBehind(a: string, b: string, i: nat)
    requires a != "" && b != "" && a[0] == b[0]
    ensures FallsBehind(a, b, i + 1) <==> FallsBehind(a[1..], b[1..], i)
  {
    if i + 1 <= |a| && i + 1 <= |b| {
      assert a[..i + 1] == [a[0]] + a[1..][..i] && b[..i + 1] == [b[0]] + b[1..][..i];
      if a[..i + 1] == b[..i + 1] {
        assert a[1..][..i] == a[..i + 1][1..] == b[..i + 1][1..] == b[1..][..i];
      }
    }
  }
}
