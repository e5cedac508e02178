/**
  Two stages joined by an in-process pipe. A write waits until the reading stage has taken it or the
  read end is closed; a read waits until something is written or the write end is closed, with or
  without an error. The writing stage closes its end when it returns, and the caller, which runs the
  reading stage, then waits for the writing stage's result.
 */
module Pipes {
  import opened Basics
  import opened Container

  /**
    bytes and writerOk: how much the writing stage has to write, and how it ends after that. stops
    and readerOk: after how many bytes, if at all, the reading stage returns without waiting for the
    end, and what it makes of what it has read. closes: the caller then closes the read end.
   */
  datatype Setting = Setting(bytes: nat, writerOk: bool, stops: Option<nat>, readerOk: bool, closes: bool)

  datatype Stage = Running | Waiting | Returned(ok: bool)

  datatype State = State(writer: Stage, reader: Stage, left: nat, taken: nat, readClosed: bool)

  datatype Action = Offer | WriteFails | WriterReturns | Receive | SeeEnd | StopEarly | CloseRead

  function Start(c: Setting): State {
    State(Running, Running, c.bytes, 0, false)
  }

  ghost predicate Next(c: Setting, s: State, act: Action, s': State) {
    match act
    // The writing stage.
    case Offer => s.writer == Running && s.left > 0 && !s.readClosed && s' == s.(writer := Waiting)
    case WriteFails =>
      && (s.writer == Waiting || (s.writer == Running && s.left > 0)) && s.readClosed
      && s' == s.(writer := Returned(false))
    case WriterReturns => s.writer == Running && s.left == 0 && s' == s.(writer := Returned(c.writerOk))
    // The reading stage. An error behind the end of the pipe becomes its own error.
    case Receive =>
      s.reader == Running && s.writer == Waiting && s.left > 0 && c.stops != Some(s.taken)
      && s' == s.(writer := Running, left := s.left - 1, taken := s.taken + 1)
    case SeeEnd =>
      s.reader == Running && s.writer.Returned? && s' == s.(reader := Returned(s.writer.ok && c.readerOk))
    case StopEarly => s.reader == Running && c.stops == Some(s.taken) && s' == s.(reader := Returned(c.readerOk))
    case CloseRead => c.closes && s.reader.Returned? && !s.readClosed && s' == s.(readClosed := true)
  }

  ghost predicate Run(c: Setting, ss: seq<State>, acts: seq<Action>) {
    && |ss| == |acts| + 1
    && ss[0] == Start(c)
    && forall i | 0 <= i < |acts| :: Next(c, ss[i], acts[i], ss[i + 1])
  }

  ghost predicate Blocked(c: Setting, s: State) {
    forall act, s' :: !Next(c, s, act, s')
  }

  /** Both stages have returned, so the caller returns. */
  predicate Over(s: State) {
    s.reader.Returned? && s.writer.Returned?
  }

  /** The caller's answer: the first stage's error, else the other's. */
  predicate Succeeds(s: State)
    requires Over(s)
  {
    s.reader.ok && s.writer.ok
  }

  /** The reading stage returns with something left to read. */
  predicate StopsShort(c: Setting) {
    c.stops.Some? && c.stops.value < c.bytes
  }

  ghost predicate Inv(c: Setting, s: State) {
    && s.taken + s.left == c.bytes && (c.stops.Some? ==> s.taken <= c.stops.value)
    && s.reader != Waiting
    && (s.writer == Waiting ==> s.left > 0)
    && (s.readClosed ==> c.closes && s.reader.Returned?)
    && (s.writer.Returned? && s.left == 0 ==> s.writer.ok == c.writerOk)
    && (s.writer.Returned? && s.left > 0 ==> !s.writer.ok && StopsShort(c) && s.readClosed)
    && (s.reader.Returned? && s.left > 0 ==> StopsShort(c))
    && (s.reader.Returned? && s.left == 0 ==>
          s.reader.ok == c.readerOk || (s.writer.Returned? && s.reader.ok == (c.readerOk && s.writer.ok)))
    && (StopsShort(c) ==> s.left > 0)
  }

  lemma {:induction false} RunKeepsInv(c: Setting, ss: seq<State>, acts: seq<Action>, i: nat)
    requires Run(c, ss, acts) && i < |ss|
    ensures Inv(c, ss[i])
  {
    if i > 0 {
      RunKeepsInv(c, ss, acts, i - 1);
      assert Next(c, ss[i - 1], acts[i - 1], ss[i]);
    }
  }

  function Rest(stage: Stage): nat {
    match stage
    case Running => 2
    case Waiting => 1
    case Returned(_) => 0
  }

  function Measure(s: State): nat {
    2 * s.left + Rest(s.writer) + Rest(s.reader) + if s.readClosed then 0 else 1
  }

  /** Every schedule comes to an end. */
  lemma {:induction false} RunsEnd(c: Setting, ss: seq<State>, acts: seq<Action>)
    requires Run(c, ss, acts)
    ensures |acts| + Measure(ss[|acts|]) <= 2 * c.bytes + 5
  {
    if acts != [] {
      var k := |acts| - 1;
      assert Run(c, ss[..k + 1], acts[..k]);
      RunsEnd(c, ss[..k + 1], acts[..k]);
      assert Next(c, ss[k], acts[k], ss[k + 1]);
    }
  }

  /** A schedule can go on unless both stages have returned, or a write waits that nobody will ever take. */
  lemma CanGoOn(c: Setting, s: State)
    requires Inv(c, s)
    requires s.reader == Running || s.writer == Running || (s.writer == Waiting && c.closes)
    ensures !Blocked(c, s)
  {
    var act, after :=
      if s.writer == Running then
        if s.left == 0 then WriterReturns else if s.readClosed then WriteFails else Offer
      else if s.reader.Returned? then
        if s.readClosed then WriteFails else CloseRead
      else if s.writer.Returned? then SeeEnd
      else if c.stops == Some(s.taken) then StopEarly else Receive,
      if s.writer == Running then
        if s.left == 0 then s.(writer := Returned(c.writerOk))
        else if s.readClosed then s.(writer := Returned(false)) else s.(writer := Waiting)
      else if s.reader.Returned? then
        if s.readClosed then s.(writer := Returned(false)) else s.(readClosed := true)
      else if s.writer.Returned? then s.(reader := Returned(s.writer.ok && c.readerOk))
      else if c.stops == Some(s.taken) then s.(reader := Returned(c.readerOk))
      else s.(writer := Running, left := s.left - 1, taken := s.taken + 1);
    assert Next(c, s, act, after);
  }

  /**
    Where every schedule ends, whichever stage is first. The caller waits forever exactly when the
    reading stage stops short and nobody closes the read end. Otherwise both stages have returned, and
    the caller sees no error exactly when neither stage had one and everything was taken.
   */
  lemma PipeOutcome(c: Setting, ss: seq<State>, acts: seq<Action>)
    requires Run(c, ss, acts) && Blocked(c, ss[|acts|])
    ensures var s := ss[|acts|];
      && (Over(s) <==> c.closes || !StopsShort(c))
      && (Over(s) ==> (Succeeds(s) <==> c.writerOk && c.readerOk && !StopsShort(c)))
      && (Over(s) && Succeeds(s) ==> s.taken == c.bytes)
  {
    var s := ss[|acts|];
    RunKeepsInv(c, ss, acts, |acts|);
    if s.reader == Running || s.writer == Running || (s.writer == Waiting && c.closes) {
      CanGoOn(c, s);
    }
  }

  /** A stage that fails makes the caller fail. */
  lemma FailuresAreReported(c: Setting, ss: seq<State>, acts: seq<Action>, i: nat, j: nat)
    requires Run(c, ss, acts) && i <= j < |ss| && Over(ss[j])
    requires ss[i].writer == Returned(false) || ss[i].reader == Returned(false)
    ensures !Succeeds(ss[j])
  {
    ReturnsAreFinal(c, ss, acts, i, j);
  }

  lemma {:induction false} ReturnsAreFinal(c: Setting, ss: seq<State>, acts: seq<Action>, i: nat, j: nat)
    requires Run(c, ss, acts) && i <= j < |ss|
    ensures ss[i].writer.Returned? ==> ss[j].writer == ss[i].writer
    ensures ss[i].reader.Returned? ==> ss[j].reader == ss[i].reader
    decreases j
  {
    if i < j {
      ReturnsAreFinal(c, ss, acts, i, j - 1);
      assert Next(c, ss[j - 1], acts[j - 1], ss[j]);
    }
  }

  // ---------- The three pipes of the program ----------

  /** Decrypting a compressed blob: the frames' plaintext into gunzip and the output, which may stop anywhere. */
  function DecryptPipe(plain: Bytes, verdict: Container.Verdict, stops: Option<nat>, readerOk: bool): Setting {
    Setting(|plain|, verdict == Done, stops, readerOk, true)
  }

  lemma DecryptingEnds(plain: Bytes, verdict: Container.Verdict, stops: Option<nat>, readerOk: bool, ss: seq<State>,
                       acts: seq<Action>)
    requires var c := DecryptPipe(plain, verdict, stops, readerOk); Run(c, ss, acts) && Blocked(c, ss[|acts|])
    ensures var s := ss[|acts|];
      && Over(s)
      && (Succeeds(s) <==> verdict == Done && readerOk && (stops.None? || stops.value >= |plain|))
  {
    PipeOutcome(DecryptPipe(plain, verdict, stops, readerOk), ss, acts);
  }

  /** Uploading: the encryption into a link that takes room bytes, or all of them and then accepts them or not. */
  function UploadPipe(blob: Bytes, encrypted: bool, room: nat, accepted: bool): Setting {
    Setting(|blob|, encrypted, if |blob| > room then Some(room) else None, |blob| <= room && accepted, true)
  }

  lemma UploadingEnds(blob: Bytes, encrypted: bool, room: nat, accepted: bool, ss: seq<State>, acts: seq<Action>)
    requires var c := UploadPipe(blob, encrypted, room, accepted); Run(c, ss, acts) && Blocked(c, ss[|acts|])
    ensures Over(ss[|acts|]) && (Succeeds(ss[|acts|]) <==> encrypted && accepted && |blob| <= room)
  {
    PipeOutcome(UploadPipe(blob, encrypted, room, accepted), ss, acts);
  }

  /** CompressAndEncryptFile: the compressed stream into an encryption whose sink takes room bytes. */
  function CompressPipe(a: Aead, nonces: nat -> Nonce, packed: Bytes, sourceOk: bool, room: nat): Setting {
    var fits := |Blob(GZIP_MAGIC, a, nonces, packed)| <= room;
    Setting(|packed|, sourceOk, if fits then None else Some(Consumed(|packed|, room)), fits, false)
  }

  /**
    Its call never returns exactly when the sink gives out before the last frame. When it returns, it
    reports success exactly when the source ended properly and the sink took everything.
   */
  lemma CompressingEndsIff(a: Aead, nonces: nat -> Nonce, packed: Bytes, sourceOk: bool, room: nat, ss: seq<State>,
                           acts: seq<Action>)
    requires Lawful(a)
    requires var c := CompressPipe(a, nonces, packed, sourceOk, room); Run(c, ss, acts) && Blocked(c, ss[|acts|])
    ensures var s := ss[|acts|];
      && (!Over(s) <==> packed != [] && room < 8 + FramesSize(LastChunk(|packed|)))
      && (!Over(s) <==> Stalls(a, nonces, packed, room))
      && (Over(s) ==> (Succeeds(s) <==> sourceOk && |Blob(GZIP_MAGIC, a, nonces, packed)| <= room))
  {
    StallsIff(a, nonces, packed, room);
    hide Blob, FramesSize, LastChunk, Consumed, Lawful;
    PipeOutcome(CompressPipe(a, nonces, packed, sourceOk, room), ss, acts);
  }
}
