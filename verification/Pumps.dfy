/**
 * One connection of the ocpp-server (backend/services/ocpp-server/internal/ws/connection.go): readPump, writePump and
 * cleanup stepping concurrently over the bounded send channel, with the manager's pings and the ticker beside them.
 */
module Pumps {

  const CAPACITY := 16

  type Response = string

  datatype Frame = Text(r: Response) | Close | Ping

  datatype Reader =
    | Reading
    | Sending(r: Response)
    | ClosingChannel
    | ClosingSocket
    | Unregistering
    | Cancelling
    | Done

  datatype Writer =
    | Selecting
    | WritingText(r: Response)
    | WritingClose
    | WritingPing
    | Stopped

  /** What came of a response handed to Send, and how full the buffer was. */
  datatype Offer = Offer(r: Response, buffered: nat, accepted: bool)

  /** arrived (what Process returned), offers and taken are history; panics and doubleCloses count the two ways a channel can be misused. */
  datatype Conn = Conn(
    reader: Reader,
    writer: Writer,
    buf: seq<Response>,
    closed: bool,
    socketOpen: bool,
    cancelled: bool,
    wire: seq<Frame>,
    arrived: seq<Response>,
    offers: seq<Offer>,
    taken: seq<Response>,
    panics: nat,
    doubleCloses: nat)

  datatype Arrival = ReadError | NoResponse | Respond(r: Response)

  datatype Step =
    | Receive(a: Arrival)
    | ReaderSeesCancel
    | Send
    | CloseChannel
    | CloseSocket
    | Unregister
    | Cancel
    | Take
    | SeeClosed
    | Tick
    | WriterSeesCancel
    | Written(ok: bool)
    | ManagerPing(ok: bool)

  function Init(): Conn {
    Conn(Reading, Selecting, [], false, true, false, [], [], [], [], 0, 0)
  }

  /** Send: a select with a default, and a recover for a closed channel. */
  function OnSend(s: Conn): Conn {
    if !s.reader.Sending? then s
    else if s.closed then s.(reader := Reading, panics := s.panics + 1)
    else
      var accepted := |s.buf| < CAPACITY;
      s.(reader := Reading,
         buf := if accepted then s.buf + [s.reader.r] else s.buf,
         offers := s.offers + [Offer(s.reader.r, |s.buf|, accepted)])
  }

  /** The end of the writer's current write; a closed socket fails every write. */
  function OnWritten(s: Conn, ok: bool): Conn {
    var done := ok && s.socketOpen;
    match s.writer
    case WritingText(r) => if done then s.(writer := Selecting, wire := s.wire + [Text(r)]) else s.(writer := Stopped)
    case WritingPing => if done then s.(writer := Selecting, wire := s.wire + [Ping]) else s.(writer := Stopped)
    case WritingClose => if done then s.(writer := Stopped, wire := s.wire + [Close]) else s.(writer := Stopped)
    case _ => s
  }

  /** A label that is not enabled leaves the connection unchanged. */
  function Next(s: Conn, e: Step): Conn {
    match e
    case Receive(a) =>
      if !s.reader.Reading? then s
      else (match a
            case ReadError => s.(reader := ClosingChannel)
            case NoResponse => s
            case Respond(r) => s.(reader := Sending(r), arrived := s.arrived + [r]))
    case ReaderSeesCancel => if s.reader.Reading? && s.cancelled then s.(reader := ClosingChannel) else s
    case Send => OnSend(s)
    case CloseChannel =>
      if !s.reader.ClosingChannel? then s
      else if s.closed then s.(reader := ClosingSocket, doubleCloses := s.doubleCloses + 1)
      else s.(reader := ClosingSocket, closed := true)
    case CloseSocket => if s.reader.ClosingSocket? then s.(reader := Unregistering, socketOpen := false) else s
    case Unregister => if s.reader.Unregistering? then s.(reader := Cancelling) else s
    case Cancel => if s.reader.Cancelling? then s.(reader := Done, cancelled := true) else s
    case Take =>
      if s.writer.Selecting? && s.buf != []
      then s.(writer := WritingText(s.buf[0]), buf := s.buf[1..], taken := s.taken + [s.buf[0]])
      else s
    case SeeClosed => if s.writer.Selecting? && s.buf == [] && s.closed then s.(writer := WritingClose) else s
    case Tick => if s.writer.Selecting? then s.(writer := WritingPing) else s
    case WriterSeesCancel => if s.writer.Selecting? && s.cancelled then s.(writer := Stopped) else s
    case Written(ok) => OnWritten(s, ok)
    case ManagerPing(ok) => if ok && s.socketOpen then s.(wire := s.wire + [Ping]) else s
  }

  function Exec(s: Conn, es: seq<Step>): Conn {
    if es == [] then s else Next(Exec(s, es[..|es| - 1]), es[|es| - 1])
  }

  // ----- Order and capacity -----

  function Accepted(offers: seq<Offer>): seq<Response> {
    if offers == [] then []
    else Accepted(offers[..|offers| - 1]) + if offers[|offers| - 1].accepted then [offers[|offers| - 1].r] else []
  }

  function Texts(wire: seq<Frame>): seq<Response> {
    if wire == [] then []
    else Texts(wire[..|wire| - 1]) + if wire[|wire| - 1].Text? then [wire[|wire| - 1].r] else []
  }

  lemma AcceptedSnoc(offers: seq<Offer>, o: Offer)
    ensures Accepted(offers + [o]) == Accepted(offers) + if o.accepted then [o.r] else []
  {
    assert (offers + [o])[..|offers|] == offers;
  }

  lemma TextsSnoc(wire: seq<Frame>, f: Frame)
    ensures Texts(wire + [f]) == Texts(wire) + if f.Text? then [f.r] else []
  {
    assert (wire + [f])[..|wire|] == wire;
  }

  ghost predicate InOrder(s: Conn) {
    && s.taken + s.buf == Accepted(s.offers)
    && |s.buf| <= CAPACITY
    && (forall i :: 0 <= i < |s.offers| ==> (s.offers[i].accepted <==> s.offers[i].buffered < CAPACITY) && s.offers[i].buffered <= CAPACITY)
    && match s.writer
       case Selecting => Texts(s.wire) == s.taken
       case WritingPing => Texts(s.wire) == s.taken
       case WritingClose => Texts(s.wire) == s.taken
       case WritingText(r) => Texts(s.wire) + [r] == s.taken
       case Stopped => Texts(s.wire) <= s.taken && |s.taken| <= |Texts(s.wire)| + 1
  }

  lemma SendInOrder(s: Conn)
    requires InOrder(s)
    ensures InOrder(OnSend(s))
  {
    if s.reader.Sending? && !s.closed {
      var o := Offer(s.reader.r, |s.buf|, |s.buf| < CAPACITY);
      AcceptedSnoc(s.offers, o);
      var s' := OnSend(s);
      assert s.taken + (s.buf + [s.reader.r]) == (s.taken + s.buf) + [s.reader.r];
      assert s'.taken + s'.buf == Accepted(s'.offers);
    }
  }

  lemma TakeInOrder(s: Conn)
    requires InOrder(s)
    ensures InOrder(Next(s, Take))
  {
    if s.writer.Selecting? && s.buf != [] {
      assert (s.taken + [s.buf[0]]) + s.buf[1..] == s.taken + s.buf;
    }
  }

  lemma FailedWriteInOrder(s: Conn)
    requires InOrder(s) && !s.writer.Selecting?
    ensures InOrder(s.(writer := Stopped))
  {
  }

  lemma TextInOrder(s: Conn, r: Response)
    requires InOrder(s) && s.writer == WritingText(r)
    ensures InOrder(s.(writer := Selecting, wire := s.wire + [Text(r)]))
  {
    TextsSnoc(s.wire, Text(r));
  }

  lemma ControlInOrder(s: Conn, f: Frame, writer: Writer)
    requires InOrder(s) && !f.Text? && (s.writer.WritingPing? || s.writer.WritingClose?) && (writer.Selecting? || writer.Stopped?)
    ensures InOrder(s.(writer := writer, wire := s.wire + [f]))
  {
    TextsSnoc(s.wire, f);
  }

  lemma WrittenInOrder(s: Conn, ok: bool)
    requires InOrder(s)
    ensures InOrder(OnWritten(s, ok))
  {
    if ok && s.socketOpen {
      match s.writer
      case WritingText(r) => TextInOrder(s, r);
      case WritingPing => ControlInOrder(s, Ping, Selecting);
      case WritingClose => ControlInOrder(s, Close, Stopped);
      case _ =>
    } else if !s.writer.Selecting? {
      FailedWriteInOrder(s);
    }
  }

  /** Cleanup and reading leave order and wire alone, and so does a writer that turns to a control frame or stops. */
  lemma SameInOrder(s: Conn, s': Conn)
    requires InOrder(s)
    requires s'.taken == s.taken && s'.buf == s.buf && s'.offers == s.offers && s'.wire == s.wire
    requires s'.writer == s.writer || (s.writer.Selecting? && (s'.writer.WritingPing? || s'.writer.WritingClose? || s'.writer.Stopped?))
    ensures InOrder(s')
  {
  }

  lemma OtherInOrder(s: Conn, e: Step)
    requires InOrder(s) && !e.Send? && !e.Take? && !e.Written? && !e.ManagerPing?
    ensures InOrder(Next(s, e))
  {
    SameInOrder(s, Next(s, e));
  }

  lemma PingInOrder(s: Conn, ok: bool)
    requires InOrder(s)
    ensures InOrder(Next(s, ManagerPing(ok)))
  {
    TextsSnoc(s.wire, Ping);
  }

  lemma StepInOrder(s: Conn, e: Step)
    requires InOrder(s)
    ensures InOrder(Next(s, e))
  {
    match e
    case Send => SendInOrder(s);
    case Take => TakeInOrder(s);
    case Written(ok) => WrittenInOrder(s, ok);
    case ManagerPing(ok) => PingInOrder(s, ok);
    case _ => OtherInOrder(s, e);
  }

  lemma {:induction false} RunInOrder(es: seq<Step>)
    ensures InOrder(Exec(Init(), es))
  {
    if es != [] {
      RunInOrder(es[..|es| - 1]);
      StepInOrder(Exec(Init(), es[..|es| - 1]), es[|es| - 1]);
    }
  }

  /** The response the writer has taken and not finished writing. */
  function InHand(w: Writer): (r: seq<Response>) { if w.WritingText? then [w.r] else [] }

  /**
   * In every interleaving: the responses taken by the writer followed by the buffered ones are the accepted responses in
   * order; until the writer stops the text frames on the wire and the one in hand are exactly those taken, and when it has
   * stopped at most the last one taken is missing; the buffer never exceeds 16, and a response is dropped exactly when it
   * is full.
   */
  lemma DeliveredInOrder(es: seq<Step>)
    ensures var s := Exec(Init(), es);
            && s.taken + s.buf == Accepted(s.offers)
            && (!s.writer.Stopped? ==> Texts(s.wire) + InHand(s.writer) == s.taken)
            && Texts(s.wire) <= s.taken && |s.taken| <= |Texts(s.wire)| + 1
            && |s.buf| <= 16
            && (forall i :: 0 <= i < |s.offers| ==> (!s.offers[i].accepted <==> s.offers[i].buffered == 16))
  {
    RunInOrder(es);
  }

  /** Every response Process returned has been offered to the channel, in order, but for one still on its way. */
  ghost predicate AllOffered(s: Conn) {
    && |s.arrived| == |s.offers| + s.panics + (if s.reader.Sending? then 1 else 0)
    && (s.reader.Sending? ==> s.arrived[|s.arrived| - 1] == s.reader.r)
    && (s.panics == 0 ==> forall i :: 0 <= i < |s.offers| ==> s.offers[i].r == s.arrived[i])
  }

  lemma SendAllOffered(s: Conn)
    requires AllOffered(s)
    ensures AllOffered(OnSend(s))
  {
  }

  lemma ReceiveAllOffered(s: Conn, a: Arrival)
    requires AllOffered(s)
    ensures AllOffered(Next(s, Receive(a)))
  {
  }

  lemma SameOffered(s: Conn, s': Conn)
    requires AllOffered(s) && s'.arrived == s.arrived && s'.offers == s.offers && s'.panics == s.panics
    requires s'.reader == s.reader || (!s.reader.Sending? && !s'.reader.Sending?)
    ensures AllOffered(s')
  {
  }

  predicate OfCleanup(e: Step) { e.ReaderSeesCancel? || e.CloseChannel? || e.CloseSocket? || e.Unregister? || e.Cancel? }

  lemma CleanupAllOffered(s: Conn, e: Step)
    requires AllOffered(s) && OfCleanup(e)
    ensures AllOffered(Next(s, e))
  {
    SameOffered(s, Next(s, e));
  }

  lemma WriterAllOffered(s: Conn, e: Step)
    requires AllOffered(s) && !e.Send? && !e.Receive? && !OfCleanup(e)
    ensures AllOffered(Next(s, e))
  {
    SameOffered(s, Next(s, e));
  }

  lemma StepAllOffered(s: Conn, e: Step)
    requires AllOffered(s)
    ensures AllOffered(Next(s, e))
  {
    if e.Send? {
      SendAllOffered(s);
    } else if e.Receive? {
      ReceiveAllOffered(s, e.a);
    } else if OfCleanup(e) {
      CleanupAllOffered(s, e);
    } else {
      WriterAllOffered(s, e);
    }
  }

  lemma {:induction false} RunAllOffered(es: seq<Step>)
    ensures AllOffered(Exec(Init(), es))
  {
    if es != [] {
      RunAllOffered(es[..|es| - 1]);
      StepAllOffered(Exec(Init(), es[..|es| - 1]), es[|es| - 1]);
    }
  }

  // ----- Shutdown -----

  predicate PastClose(r: Reader) { r.ClosingSocket? || r.Unregistering? || r.Cancelling? || r.Done? }

  ghost predicate OrderlyShutdown(s: Conn) {
    && (s.closed <==> PastClose(s.reader))
    && (!s.socketOpen <==> s.reader.Unregistering? || s.reader.Cancelling? || s.reader.Done?)
    && (s.cancelled <==> s.reader.Done?)
    && s.panics == 0 && s.doubleCloses == 0
    && (s.writer.WritingClose? ==> s.closed && s.buf == [])
    && (forall i :: 0 <= i < |s.wire| && s.wire[i].Close? ==> s.writer.Stopped?)
    && (forall i, j :: 0 <= i < j < |s.wire| && s.wire[i].Close? ==> s.wire[j].Ping?)
  }

  lemma StepOrderly(s: Conn, e: Step)
    requires OrderlyShutdown(s)
    ensures OrderlyShutdown(Next(s, e))
  {
  }

  lemma {:induction false} RunOrderly(es: seq<Step>)
    ensures OrderlyShutdown(Exec(Init(), es))
  {
    if es != [] {
      RunOrderly(es[..|es| - 1]);
      StepOrderly(Exec(Init(), es[..|es| - 1]), es[|es| - 1]);
    }
  }

  /**
   * In every run: the channel is never closed twice and never sent on after closing, so Send's recover never fires; at most
   * one Close frame is written, and after it come neither texts nor another Close.
   */
  lemma CleanShutdown(es: seq<Step>)
    ensures var s := Exec(Init(), es);
            && s.doubleCloses == 0 && s.panics == 0
            && (s.reader.Sending? ==> !s.closed)
            && (forall i, j :: 0 <= i < j < |s.wire| && s.wire[i].Close? ==> s.wire[j].Ping?)
  {
    RunOrderly(es);
  }

  /** No response is lost on the way to the channel: all but one still being sent have been offered, in order. */
  lemma EveryResponseOffered(es: seq<Step>)
    ensures var s := Exec(Init(), es);
            && |s.offers| <= |s.arrived| <= |s.offers| + 1
            && (forall i :: 0 <= i < |s.offers| ==> s.offers[i].r == s.arrived[i])
            && (|s.arrived| == |s.offers| + 1 <==> s.reader.Sending?)
  {
    RunOrderly(es);
    RunAllOffered(es);
  }

  /** The label is a turn of the writer that takes from the channel or sees it closed. */
  predicate ChannelTurn(s: Conn, e: Step) {
    s.writer.Selecting? && ((e.Take? && s.buf != []) || (e.SeeClosed? && s.buf == [] && s.closed))
  }

  function ChannelTurns(s: Conn, es: seq<Step>): nat {
    if es == [] then 0
    else ChannelTurns(s, es[..|es| - 1]) + if ChannelTurn(Exec(s, es[..|es| - 1]), es[|es| - 1]) then 1 else 0
  }

  /** Channel turns still possible once the channel is closed. */
  function TurnsLeft(s: Conn): nat {
    if s.writer.Stopped? || s.writer.WritingClose? then 0 else |s.buf| + 1
  }

  lemma StepTurnsLeft(s: Conn, e: Step)
    requires OrderlyShutdown(s) && s.closed
    ensures Next(s, e).closed
    ensures TurnsLeft(Next(s, e)) + (if ChannelTurn(s, e) then 1 else 0) <= TurnsLeft(s)
  {
  }

  /** From any point of any run after cleanup closed the channel, the writer takes at most the buffered count plus one turns. */
  lemma {:induction false} WriterStopsAfterClose(s: Conn, es: seq<Step>)
    requires OrderlyShutdown(s) && s.closed
    ensures OrderlyShutdown(Exec(s, es)) && Exec(s, es).closed
    ensures ChannelTurns(s, es) + TurnsLeft(Exec(s, es)) <= TurnsLeft(s) <= |s.buf| + 1
    ensures ChannelTurns(s, es) == |s.buf| + 1 ==> Exec(s, es).writer.WritingClose? || Exec(s, es).writer.Stopped?
  {
    if es != [] {
      var p := es[..|es| - 1];
      WriterStopsAfterClose(s, p);
      StepOrderly(Exec(s, p), es[|es| - 1]);
      StepTurnsLeft(Exec(s, p), es[|es| - 1]);
    }
  }

  /** Any turn at all: channel, ticker or cancellation. */
  predicate AnyTurn(s: Conn, e: Step) {
    ChannelTurn(s, e) || (s.writer.Selecting? && (e.Tick? || (e.WriterSeesCancel? && s.cancelled)))
  }

  function AnyTurns(s: Conn, es: seq<Step>): nat {
    if es == [] then 0
    else AnyTurns(s, es[..|es| - 1]) + if AnyTurn(Exec(s, es[..|es| - 1]), es[|es| - 1]) then 1 else 0
  }

  lemma StepAfterSocketClose(s: Conn, e: Step)
    requires !s.socketOpen
    ensures var s' := Next(s, e);
            && !s'.socketOpen && s'.wire == s.wire
            && (AnyTurn(s, e) ==> s.writer.Selecting?)
            && (s'.writer.Selecting? ==> s.writer.Selecting? && !AnyTurn(s, e))
  {
    match e
    case Take =>
    case SeeClosed =>
    case Tick =>
    case WriterSeesCancel =>
    case Written(_) =>
    case _ =>
  }

  /** Once the socket is closed too, whatever the writer turns to next, it is its last turn, and nothing more is written. */
  lemma {:induction false} WriterStopsAfterSocketClose(s: Conn, es: seq<Step>)
    requires OrderlyShutdown(s) && !s.socketOpen
    ensures OrderlyShutdown(Exec(s, es)) && !Exec(s, es).socketOpen && Exec(s, es).wire == s.wire
    ensures AnyTurns(s, es) <= if s.writer.Selecting? then 1 else 0
    ensures s.writer.Selecting? && AnyTurns(s, es) == 1 ==> !Exec(s, es).writer.Selecting?
    ensures !s.writer.Selecting? ==> !Exec(s, es).writer.Selecting?
  {
    if es != [] {
      var p, e := es[..|es| - 1], es[|es| - 1];
      WriterStopsAfterSocketClose(s, p);
      StepOrderly(Exec(s, p), e);
      StepAfterSocketClose(Exec(s, p), e);
    }
  }
}
