/**
  The two ends a streaming routine talks to. A reader may split its data in any way Go's
  io.Reader contract allows: short reads, reads of zero bytes, an end reported with the last
  bytes or after them, and an end that is a failure. A writer may fail after any number of bytes.
 */
module Streams {
  import opened Basics

  datatype End = Eof | Failed

  /** What one underlying read yields: some bytes and, possibly, the end of the stream. */
  datatype Event = Event(data: Bytes, end: Option<End>)

  /** Every byte a script delivers before its end. */
  ghost function DataOf(script: seq<Event>): Bytes {
    if script == [] then []
    else if script[0].end.Some? then script[0].data
    else script[0].data + DataOf(script[1..])
  }

  /** How a script ends; running out of events is an ordinary end of file. */
  ghost function EndOf(script: seq<Event>): End {
    if script == [] then Eof
    else if script[0].end.Some? then script[0].end.value
    else EndOf(script[1..])
  }

  class Reader {
    var script: seq<Event>

    constructor (script: seq<Event>)
      ensures this.script == script
    {
      this.script := script;
    }

    ghost function Data(): Bytes
      reads this
    {
      DataOf(script)
    }

    ghost function Ending(): End
      reads this
    {
      EndOf(script)
    }

    /** Bounds the reads left before the end is reported. */
    ghost function Effort(): nat
      reads this
    {
      |script| + |Data()|
    }

    /** One Read into buf[from..]. Once the end has been reported it is reported again. */
    method Read(buf: array<byte>, from: nat) returns (n: nat, end: Option<End>)
      requires from < buf.Length
      modifies this, buf
      ensures from + n <= buf.Length
      ensures buf[..from] == old(buf[..from])
      ensures old(Data()) == buf[from..from + n] + Data()
      ensures Ending() == old(Ending())
      ensures end.Some? ==> Data() == [] && end.value == Ending()
      ensures end.None? ==> Effort() < old(Effort())
    {
      if script == [] {
        return 0, Some(Eof);
      }
      var event := script[0];
      var room := buf.Length - from;
      n := if |event.data| <= room then |event.data| else room;
      forall i | 0 <= i < n {
        buf[from + i] := event.data[i];
      }
      assert buf[from..from + n] == event.data[..n];
      if n < |event.data| {
        assert event.data == event.data[..n] + event.data[n..];
        ghost var before := script;
        script := [Event(event.data[n..], event.end)] + script[1..];
        assert script[1..] == before[1..];
        end := None;
      } else if event.end.Some? {
        script := [Event([], event.end)];
        end := event.end;
      } else {
        script := script[1..];
        end := None;
      }
    }
  }

  /** io.ReadFull's verdict: nil, io.EOF (nothing read), io.ErrUnexpectedEOF, or the failure. */
  datatype FullRead = Full | NothingLeft | CutShort | ReadFailed

  /** The verdict of reading want bytes from data that ends as given. */
  function FullReadOf(data: Bytes, end: End, want: nat): FullRead {
    if want <= |data| then Full
    else if end == Failed then ReadFailed
    else if data == [] then NothingLeft
    else CutShort
  }

  /** io.ReadFull: fills buf unless the stream ends first. */
  method ReadFull(src: Reader, buf: array<byte>) returns (n: nat, verdict: FullRead)
    modifies src, buf
    ensures n == |Clip(old(src.Data()), buf.Length)|
    ensures buf[..n] == Clip(old(src.Data()), buf.Length)
    ensures src.Data() == old(src.Data())[n..]
    ensures src.Ending() == old(src.Ending())
    ensures verdict == FullReadOf(old(src.Data()), old(src.Ending()), buf.Length)
  {
    hide DataOf, EndOf;
    ghost var all, ending := src.Data(), src.Ending();
    n := 0;
    var end: Option<End> := None;
    while n < buf.Length && end.None?
      invariant n <= buf.Length
      invariant all == buf[..n] + src.Data() && ending == src.Ending()
      invariant end.Some? ==> src.Data() == [] && end.value == ending
      decreases end.None?, src.Effort()
    {
      ghost var got := buf[..n];
      var m;
      m, end := src.Read(buf, n);
      assert buf[..n + m] == got + buf[n..n + m];
      Regroup(got, buf[n..n + m], src.Data());
      n := n + m;
    }
    FullReadEnds(all, buf[..n], src.Data(), buf.Length);
    if n == buf.Length {
      verdict := Full;
    } else if end.value == Failed {
      verdict := ReadFailed;
    } else if n > 0 {
      verdict := CutShort;
    } else {
      verdict := NothingLeft;
    }
  }

  lemma FullReadEnds(all: Bytes, got: Bytes, rest: Bytes, want: nat)
    requires all == got + rest && |got| <= want
    requires |got| < want ==> rest == []
    ensures got == Clip(all, want) && |got| == |Clip(all, want)| && rest == all[|got|..]
  {
  }

  class Writer {
    var out: Bytes
    var room: nat

    constructor (room: nat)
      ensures out == [] && this.room == room
    {
      out, this.room := [], room;
    }

    /** Accepts what fits; fails when not everything did. */
    method Write(p: Bytes) returns (ok: bool)
      modifies this
      ensures ok <==> |p| <= old(room)
      ensures out == old(out) + Clip(p, old(room))
      ensures room == old(room) - |Clip(p, old(room))|
    {
      ok := |p| <= room;
      out, room := out + Clip(p, room), room - |Clip(p, room)|;
    }
  }
}
