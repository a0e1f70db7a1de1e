/**
 * Why the pumps of backend/services/ocpp-server/internal/ws/connection.go stop, and that they deliver until then: the exact
 * reasons for which the writer and the reader leave their loops, over every interleaving, and what is delivered from any
 * reachable state.
 */
module PumpProgress {
  import opened Pumps

  // ----- Why the writer stops -----

  predicate Writing(w: Writer) { w.WritingText? || w.WritingPing? || w.WritingClose? }

  /** The label ends the writer's loop: a write errs, the Close frame has been tried, or the context is cancelled. */
  predicate EndsWriter(s: Conn, e: Step) {
    || (e.Written? && Writing(s.writer) && !(e.ok && s.socketOpen))
    || (e.Written? && s.writer.WritingClose?)
    || (e.WriterSeesCancel? && s.writer.Selecting? && s.cancelled)
  }

  lemma StepEndsWriterIff(s: Conn, e: Step)
    ensures Next(s, e).writer.Stopped? <==> s.writer.Stopped? || EndsWriter(s, e)
  {
    match e
    case Take =>
    case SeeClosed =>
    case Tick =>
    case WriterSeesCancel =>
    case Written(_) =>
    case _ =>
  }

  ghost predicate WriterEndedIn(es: seq<Step>) {
    exists k :: 0 <= k < |es| && EndsWriterAt(es, k)
  }

  ghost predicate EndsWriterAt(es: seq<Step>, k: nat)
    requires k < |es|
  {
    EndsWriter(Exec(Init(), es[..k]), es[k])
  }

  lemma WriterEndedSnoc(es: seq<Step>, e: Step)
    ensures WriterEndedIn(es + [e]) <==> WriterEndedIn(es) || EndsWriter(Exec(Init(), es), e)
  {
    var fs := es + [e];
    assert fs[..|es|] == es;
    forall k | 0 <= k < |es| ensures EndsWriterAt(fs, k) <==> EndsWriterAt(es, k) {
      assert fs[..k] == es[..k];
    }
    assert EndsWriterAt(fs, |es|) <==> EndsWriter(Exec(Init(), es), e);
    if WriterEndedIn(es) {
      var k :| 0 <= k < |es| && EndsWriterAt(es, k);
      assert EndsWriterAt(fs, k);
    }
  }

  /** In every run: the writer has stopped if and only if a write failed, a Close was tried, or it saw the cancellation. */
  lemma {:induction false} WriterStoppedIff(es: seq<Step>)
    ensures Exec(Init(), es).writer.Stopped? <==> WriterEndedIn(es)
  {
    if es != [] {
      var p, e := es[..|es| - 1], es[|es| - 1];
      assert es == p + [e];
      WriterStoppedIff(p);
      WriterEndedSnoc(p, e);
      StepEndsWriterIff(Exec(Init(), p), e);
    }
  }

  // ----- Why the reader leaves -----

  /** The reader is still in its loop. */
  predicate InLoop(r: Reader) { r.Reading? || r.Sending? }

  /** The label ends the reader's loop: a read errs or the context is cancelled. Nothing else does, not even an empty answer. */
  predicate EndsReader(s: Conn, e: Step) {
    s.reader.Reading? && ((e.Receive? && e.a.ReadError?) || (e.ReaderSeesCancel? && s.cancelled))
  }

  lemma StepEndsReaderIff(s: Conn, e: Step)
    ensures !InLoop(Next(s, e).reader) <==> !InLoop(s.reader) || EndsReader(s, e)
  {
    match e
    case Receive(_) =>
    case ReaderSeesCancel =>
    case Send =>
    case CloseChannel =>
    case CloseSocket =>
    case Unregister =>
    case Cancel =>
    case _ =>
  }

  ghost predicate ReaderEndedIn(es: seq<Step>) {
    exists k :: 0 <= k < |es| && EndsReaderAt(es, k)
  }

  ghost predicate EndsReaderAt(es: seq<Step>, k: nat)
    requires k < |es|
  {
    EndsReader(Exec(Init(), es[..k]), es[k])
  }

  lemma ReaderEndedSnoc(es: seq<Step>, e: Step)
    ensures ReaderEndedIn(es + [e]) <==> ReaderEndedIn(es) || EndsReader(Exec(Init(), es), e)
  {
    var fs := es + [e];
    assert fs[..|es|] == es;
    forall k | 0 <= k < |es| ensures EndsReaderAt(fs, k) <==> EndsReaderAt(es, k) {
      assert fs[..k] == es[..k];
    }
    assert EndsReaderAt(fs, |es|) <==> EndsReader(Exec(Init(), es), e);
    if ReaderEndedIn(es) {
      var k :| 0 <= k < |es| && EndsReaderAt(es, k);
      assert EndsReaderAt(fs, k);
    }
  }

  /** In every run: the reader has gone into cleanup if and only if a read failed or it saw the cancellation. */
  lemma {:induction false} ReaderLeftIff(es: seq<Step>)
    ensures !InLoop(Exec(Init(), es).reader) <==> ReaderEndedIn(es)
  {
    if es != [] {
      var p, e := es[..|es| - 1], es[|es| - 1];
      assert es == p + [e];
      ReaderLeftIff(p);
      ReaderEndedSnoc(p, e);
      StepEndsReaderIff(Exec(Init(), p), e);
    }
  }

  // ----- Delivery -----

  /** n turns of the writer that take a response and write it. */
  function Deliver(n: nat): (es: seq<Step>) {
    if n == 0 then [] else [Take, Written(true)] + Deliver(n - 1)
  }

  lemma {:induction false} ExecConcat(s: Conn, a: seq<Step>, b: seq<Step>)
    ensures Exec(s, a + b) == Exec(Exec(s, a), b)
  {
    if b == [] {
      assert a + b == a;
    } else {
      var n := |b| - 1;
      assert (a + b)[..|a + b| - 1] == a + b[..n];
      ExecConcat(s, a, b[..n]);
    }
  }

  lemma ExecOne(s: Conn, a: Step)
    ensures Exec(s, [a]) == Next(s, a)
  {
    assert [a][..0] == [];
  }

  lemma ExecTwo(s: Conn, a: Step, b: Step)
    ensures Exec(s, [a, b]) == Next(Next(s, a), b)
  {
    assert [a, b][..1] == [a];
    ExecOne(s, a);
  }

  /** One turn puts the oldest buffered response on the wire. */
  lemma DeliverOne(s: Conn)
    requires s.writer.Selecting? && s.socketOpen && s.buf != []
    ensures Exec(s, [Take, Written(true)]) == s.(buf := s.buf[1..], taken := s.taken + [s.buf[0]], wire := s.wire + [Text(s.buf[0])])
  {
    ExecTwo(s, Take, Written(true));
  }

  /** The writer is at its select with nothing left to take, having written rs on top of what s had written. */
  ghost predicate Delivered(s: Conn, rs: seq<Response>, s': Conn) {
    && s'.writer.Selecting? && s'.buf == [] && s'.taken == s.taken + rs
    && Texts(s'.wire) == Texts(s.wire) + rs
    && s'.reader == s.reader && s'.closed == s.closed && s'.socketOpen && s'.offers == s.offers
  }

  lemma DeliveredMore(s: Conn, s1: Conn, r: Response, more: seq<Response>, s': Conn)
    requires s1 == s.(buf := more, taken := s.taken + [r], wire := s.wire + [Text(r)])
    requires Delivered(s1, more, s')
    ensures Delivered(s, [r] + more, s')
  {
    TextsSnoc(s.wire, Text(r));
    assert (Texts(s.wire) + [r]) + more == Texts(s.wire) + ([r] + more);
    assert (s.taken + [r]) + more == s.taken + ([r] + more);
  }

  /**
   * From any state with the writer at its select and the socket open, as many turns as there are buffered responses put all
   * of them on the wire, in order, and leave the writer at its select with an empty buffer.
   */
  lemma {:induction false} BufferIsDelivered(s: Conn)
    requires s.writer.Selecting? && s.socketOpen
    ensures Delivered(s, s.buf, Exec(s, Deliver(|s.buf|)))
    decreases |s.buf|
  {
    if s.buf == [] {
      assert Texts(s.wire) + s.buf == Texts(s.wire) && s.taken + s.buf == s.taken;
    } else {
      var r, more := s.buf[0], s.buf[1..];
      var s1 := s.(buf := more, taken := s.taken + [r], wire := s.wire + [Text(r)]);
      DeliverOne(s);
      ExecConcat(s, [Take, Written(true)], Deliver(|more|));
      BufferIsDelivered(s1);
      DeliveredMore(s, s1, r, more, Exec(s1, Deliver(|more|)));
      assert s.buf == [r] + more;
    }
  }

  /**
   * From any reachable state in which the writer has not stopped and the socket is open: once its current write succeeds,
   * as many successful turns as there are buffered responses put every accepted response on the wire.
   */
  lemma EverythingAcceptedIsDelivered(es: seq<Step>)
    requires var s := Exec(Init(), es); s.socketOpen && (s.writer.Selecting? || s.writer.WritingText? || s.writer.WritingPing?)
    ensures var s := Exec(Init(), es);
            var s' := Exec(Exec(s, [Written(true)]), Deliver(|s.buf|));
            s'.writer.Selecting? && Texts(s'.wire) == Accepted(s.offers)
  {
    var s := Exec(Init(), es);
    RunInOrder(es);
    var s1 := Exec(s, [Written(true)]);
    ExecOne(s, Written(true));
    CurrentWriteDone(s);
    BufferIsDelivered(s1);
  }

  lemma CurrentWriteDone(s: Conn)
    requires InOrder(s) && s.socketOpen && (s.writer.Selecting? || s.writer.WritingText? || s.writer.WritingPing?)
    ensures var s' := Next(s, Written(true));
            && s'.writer.Selecting? && s'.socketOpen && s'.buf == s.buf && s'.taken == s.taken && Texts(s'.wire) == s.taken
  {
    match s.writer
    case WritingText(r) => TextsSnoc(s.wire, Text(r));
    case WritingPing => TextsSnoc(s.wire, Ping);
    case _ =>
  }

  // ----- Pings and closing -----

  /** The ticker's turn writes a ping and keeps the writer going; so does the manager's, beside it. */
  lemma PingsGoOut(s: Conn)
    requires s.socketOpen
    ensures s.writer.Selecting? ==> Exec(s, [Tick, Written(true)]) == s.(wire := s.wire + [Ping])
    ensures Next(s, ManagerPing(true)) == s.(wire := s.wire + [Ping])
  {
    ExecTwo(s, Tick, Written(true));
  }

  /** After the channel is closed, with the socket still open: what is buffered is delivered, then one Close frame ends the wire. */
  lemma ClosedChannelDrainsThenCloses(s: Conn)
    requires s.writer.Selecting? && s.socketOpen && s.closed
    ensures var s' := Exec(Exec(s, Deliver(|s.buf|)), [SeeClosed, Written(true)]);
            && s'.writer.Stopped? && s'.buf == [] && Texts(s'.wire) == Texts(s.wire) + s.buf
            && s'.wire != [] && s'.wire[|s'.wire| - 1].Close?
  {
    var s1 := Exec(s, Deliver(|s.buf|));
    BufferIsDelivered(s);
    ExecTwo(s1, SeeClosed, Written(true));
    TextsSnoc(s1.wire, Close);
  }

  /** Once in cleanup the reader's remaining steps close the channel, then the socket, unregister, and cancel. */
  lemma CleanupCompletes(es: seq<Step>)
    requires Exec(Init(), es).reader.ClosingChannel?
    ensures var s := Exec(Init(), es);
            var s' := Exec(Exec(s, [CloseChannel, CloseSocket]), [Unregister, Cancel]);
            s'.reader.Done? && s'.closed && !s'.socketOpen && s'.cancelled && s'.wire == s.wire && s'.buf == s.buf
  {
    RunOrderly(es);
    var s := Exec(Init(), es);
    ExecTwo(s, CloseChannel, CloseSocket);
    ExecTwo(Exec(s, [CloseChannel, CloseSocket]), Unregister, Cancel);
  }
}
