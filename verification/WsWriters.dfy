/**
 * Any number of concurrent callers of WriteMessage (csms/internal/ws/simple.go): take the mutex, write the header into the
 * buffered writer, write the data, flush, release. No write fails. The buffered writer may pass bytes on to the wire early.
 */
module WsWriters {
  import opened WsBytes
  import opened WsFrames

  datatype Pc =
    | Idle
    | Locked(messageType: int, data: Bytes)
    | HeaderWritten(messageType: int, data: Bytes)
    | DataWritten(messageType: int, data: Bytes)
    | Flushed(messageType: int, data: Bytes)

  datatype Holder = Nobody | Caller(id: nat)

  /** stream is all that was handed to the buffered writer, its first `flushed` bytes are on the wire; done is history. */
  datatype State = State(callers: map<nat, Pc>, holder: Holder, stream: Bytes, flushed: nat, done: seq<(int, Bytes)>)

  datatype Step =
    | Call(id: nat, messageType: int, data: Bytes)
    | WriteHeader(id: nat)
    | WriteData(id: nat)
    | Flush(id: nat)
    | Unlock(id: nat)
    | Drain(upTo: nat)

  function Init(): State { State(map[], Nobody, [], 0, []) }

  function PcOf(s: State, c: nat): Pc { if c in s.callers then s.callers[c] else Idle }

  function At(s: State, c: nat, pc: Pc): State { s.(callers := s.callers[c := pc]) }

  function Header(messageType: int, data: Bytes): Bytes
    requires Writable(messageType, data)
  {
    [0x80 | messageType as bv8] + LengthBytes(PickForm(|data|), |data|, 0)
  }

  /** A label that is not enabled leaves the state unchanged; an unsupported type returns before locking. */
  function Next(s: State, e: Step): State {
    match e
    case Call(c, t, d) =>
      if PcOf(s, c).Idle? && s.holder.Nobody? && Writable(t, d) then At(s, c, Locked(t, d)).(holder := Caller(c)) else s
    case WriteHeader(c) =>
      var pc := PcOf(s, c);
      if pc.Locked? && Writable(pc.messageType, pc.data)
      then At(s, c, HeaderWritten(pc.messageType, pc.data)).(stream := s.stream + Header(pc.messageType, pc.data))
      else s
    case WriteData(c) =>
      var pc := PcOf(s, c);
      if pc.HeaderWritten? then At(s, c, DataWritten(pc.messageType, pc.data)).(stream := s.stream + pc.data) else s
    case Flush(c) =>
      var pc := PcOf(s, c);
      if pc.DataWritten? then At(s, c, Flushed(pc.messageType, pc.data)).(flushed := |s.stream|) else s
    case Unlock(c) =>
      var pc := PcOf(s, c);
      if pc.Flushed? then At(s, c, Idle).(holder := Nobody, done := s.done + [(pc.messageType, pc.data)]) else s
    case Drain(n) => if s.flushed <= n <= |s.stream| then s.(flushed := n) else s
  }

  function Exec(es: seq<Step>): State {
    if es == [] then Init() else Next(Exec(es[..|es| - 1]), es[|es| - 1])
  }

  ghost predicate AllWritable(ms: seq<(int, Bytes)>) {
    forall m :: m in ms ==> Writable(m.0, m.1)
  }

  predicate PcWritable(pc: Pc) { !pc.Idle? ==> Writable(pc.messageType, pc.data) }

  /** What the lock holder has handed to the buffered writer so far. */
  function Part(pc: Pc): Bytes
    requires PcWritable(pc)
  {
    match pc
    case Idle => []
    case Locked(_, _) => []
    case HeaderWritten(t, d) => Header(t, d)
    case DataWritten(t, d) => ServerFrame(t, d)
    case Flushed(t, d) => ServerFrame(t, d)
  }

  function HolderPc(s: State): Pc {
    if s.holder.Nobody? then Idle else PcOf(s, s.holder.id)
  }

  /** Only the lock holder is inside WriteMessage. */
  ghost predicate Exclusive(s: State) {
    && (forall c :: c in s.callers && !s.callers[c].Idle? ==> s.holder == Caller(c))
    && (s.holder.Caller? ==> !HolderPc(s).Idle?)
    && PcWritable(HolderPc(s))
  }

  ghost predicate StreamIs(stream: Bytes, flushed: nat, done: seq<(int, Bytes)>, pc: Pc) {
    && AllWritable(done) && PcWritable(pc)
    && stream == WriteAll(done) + Part(pc)
    && |WriteAll(done)| <= flushed <= |stream|
    && (pc.Flushed? || pc.Idle? ==> flushed == |stream|)
  }

  ghost predicate WriterInv(s: State) {
    Exclusive(s) && StreamIs(s.stream, s.flushed, s.done, HolderPc(s))
  }

  lemma {:induction false} WriteAllSnoc(ms: seq<(int, Bytes)>, m: (int, Bytes))
    requires AllWritable(ms) && Writable(m.0, m.1)
    ensures AllWritable(ms + [m]) && WriteAll(ms + [m]) == WriteAll(ms) + ServerFrame(m.0, m.1)
  {
    if ms == [] {
      assert [m][1..] == [];
      assert WriteAll([m]) == ServerFrame(m.0, m.1) + WriteAll([]);
    } else {
      assert (ms + [m])[1..] == ms[1..] + [m];
      WriteAllSnoc(ms[1..], m);
    }
  }

  lemma StepExclusive(s: State, e: Step)
    requires Exclusive(s)
    ensures Exclusive(Next(s, e))
    ensures e.Call? || e.Drain? || PcOf(s, e.id).Idle? || s.holder == Caller(e.id)
  {
  }

  // Appending at the end of a written stream.

  lemma HeaderAppended(stream: Bytes, flushed: nat, done: seq<(int, Bytes)>, t: int, d: Bytes)
    requires Writable(t, d) && StreamIs(stream, flushed, done, Locked(t, d))
    ensures StreamIs(stream + Header(t, d), flushed, done, HeaderWritten(t, d))
  {
    assert stream == WriteAll(done);
  }

  lemma DataAppended(stream: Bytes, flushed: nat, done: seq<(int, Bytes)>, t: int, d: Bytes)
    requires Writable(t, d) && StreamIs(stream, flushed, done, HeaderWritten(t, d))
    ensures StreamIs(stream + d, flushed, done, DataWritten(t, d))
  {
    var header, all := Header(t, d), WriteAll(done);
    assert ServerFrame(t, d) == header + d;
    assert stream + d == all + (header + d);
  }

  lemma StreamFlushed(stream: Bytes, flushed: nat, done: seq<(int, Bytes)>, t: int, d: Bytes)
    requires Writable(t, d) && StreamIs(stream, flushed, done, DataWritten(t, d))
    ensures StreamIs(stream, |stream|, done, Flushed(t, d))
  {
  }

  lemma StreamDone(stream: Bytes, flushed: nat, done: seq<(int, Bytes)>, t: int, d: Bytes)
    requires Writable(t, d) && StreamIs(stream, flushed, done, Flushed(t, d))
    ensures StreamIs(stream, flushed, done + [(t, d)], Idle)
  {
    WriteAllSnoc(done, (t, d));
    assert stream == WriteAll(done + [(t, d)]) + [];
  }

  /** What a caller inside WriteMessage does next to the stream. */
  lemma HolderKeeps(s: State, e: Step)
    requires WriterInv(s) && !e.Call? && !e.Drain? && s.holder == Caller(e.id)
    ensures StreamIs(Next(s, e).stream, Next(s, e).flushed, Next(s, e).done, HolderPc(Next(s, e)))
  {
    var pc := PcOf(s, e.id);
    match e
    case WriteHeader(_) =>
      if pc.Locked? { HeaderAppended(s.stream, s.flushed, s.done, pc.messageType, pc.data); }
    case WriteData(_) =>
      if pc.HeaderWritten? { DataAppended(s.stream, s.flushed, s.done, pc.messageType, pc.data); }
    case Flush(_) =>
      if pc.DataWritten? { StreamFlushed(s.stream, s.flushed, s.done, pc.messageType, pc.data); }
    case Unlock(_) =>
      if pc.Flushed? { StreamDone(s.stream, s.flushed, s.done, pc.messageType, pc.data); }
  }

  lemma StepKeeps(s: State, e: Step)
    requires WriterInv(s)
    ensures WriterInv(Next(s, e))
  {
    StepExclusive(s, e);
    if !e.Call? && !e.Drain? && !PcOf(s, e.id).Idle? {
      HolderKeeps(s, e);
    }
  }

  lemma {:induction false} RunKeeps(es: seq<Step>)
    ensures WriterInv(Exec(es))
  {
    if es != [] {
      RunKeeps(es[..|es| - 1]);
      StepKeeps(Exec(es[..|es| - 1]), es[|es| - 1]);
    }
  }

  /**
   * In every interleaving, what is on the wire is the completed frames in the order of their locks followed by a prefix of
   * the one frame the lock holder is writing; with the lock free it is exactly the completed frames, and a receiver decodes
   * exactly their types and payloads.
   */
  lemma WireIsWholeFramesPlusOnePrefix(es: seq<Step>)
    ensures var s := Exec(es);
            && s.flushed <= |s.stream| && AllWritable(s.done)
            && WriteAll(s.done) <= s.stream[..s.flushed]
            && (s.holder.Nobody? ==> s.stream[..s.flushed] == WriteAll(s.done) && DecodeAll(s.stream[..s.flushed]) == AllDecoded(s.done))
            && (s.holder.Caller? ==>
                  var pc := PcOf(s, s.holder.id);
                  && !pc.Idle? && Writable(pc.messageType, pc.data)
                  && s.stream[..s.flushed][|WriteAll(s.done)|..] <= ServerFrame(pc.messageType, pc.data))
  {
    var s := Exec(es);
    RunKeeps(es);
    OutputDecodes(s.done);
    var pc := HolderPc(s);
    if pc.Idle? {
      assert s.stream == WriteAll(s.done);
    } else {
      PartOfFrame(pc);
      CutPrefix(WriteAll(s.done), Part(pc), s.flushed, ServerFrame(pc.messageType, pc.data));
    }
  }

  lemma PartOfFrame(pc: Pc)
    requires !pc.Idle? && PcWritable(pc)
    ensures Part(pc) <= ServerFrame(pc.messageType, pc.data)
  {
  }

  lemma CutPrefix(a: Bytes, b: Bytes, n: nat, frame: Bytes)
    requires |a| <= n <= |a + b| && b <= frame
    ensures a <= (a + b)[..n] && (a + b)[..n][|a|..] <= frame
  {
    assert (a + b)[..n][|a|..] == b[..n - |a|];
  }

  // ----- Which messages are written -----

  /** The messages of the calls that got the lock, in the order in which they got it. */
  function Accepted(es: seq<Step>): (ms: seq<(int, Bytes)>) {
    if es == [] then []
    else
      var p, e := es[..|es| - 1], es[|es| - 1];
      Accepted(p) + if TakesLock(Exec(p), e) then [(e.messageType, e.data)] else []
  }

  /** A caller that is not inside WriteMessage gets the free lock for a message of a supported type. */
  predicate TakesLock(s: State, e: Step) {
    e.Call? && PcOf(s, e.id).Idle? && s.holder.Nobody? && Writable(e.messageType, e.data)
  }

  /** The message the lock holder is writing. */
  function InProgress(s: State): (ms: seq<(int, Bytes)>) {
    var pc := HolderPc(s);
    if pc.Idle? then [] else [(pc.messageType, pc.data)]
  }

  /** The steps of the call that has the lock keep its message in progress until it is done. */
  lemma HolderAccepts(s: State, e: Step)
    requires WriterInv(s) && !e.Call? && !e.Drain? && s.holder == Caller(e.id)
    ensures Next(s, e).done + InProgress(Next(s, e)) == s.done + InProgress(s)
  {
    var pc := PcOf(s, e.id);
    if e.Unlock? && pc.Flushed? {
      assert Next(s, e).done == s.done + [(pc.messageType, pc.data)] && InProgress(Next(s, e)) == [];
    } else {
      assert Next(s, e).done == s.done && InProgress(Next(s, e)) == InProgress(s);
    }
  }

  lemma CallAccepts(s: State, e: Step)
    requires WriterInv(s) && e.Call?
    ensures Next(s, e).done + InProgress(Next(s, e)) ==
            s.done + InProgress(s) + if TakesLock(s, e) then [(e.messageType, e.data)] else []
  {
  }

  lemma StepAccepts(s: State, e: Step)
    requires WriterInv(s)
    ensures Next(s, e).done + InProgress(Next(s, e)) ==
            s.done + InProgress(s) + if TakesLock(s, e) then [(e.messageType, e.data)] else []
  {
    if e.Call? {
      CallAccepts(s, e);
    } else if e.Drain? {
      assert Next(s, e).done == s.done && HolderPc(Next(s, e)) == HolderPc(s);
    } else if PcOf(s, e.id).Idle? {
      assert Next(s, e) == s;
    } else {
      HolderAccepts(s, e);
    }
  }

  /**
   * In every interleaving, the completed messages and the one in progress are exactly those given to the calls that got the
   * lock, in order.
   */
  lemma {:induction false} WrittenAreAccepted(es: seq<Step>)
    ensures Exec(es).done + InProgress(Exec(es)) == Accepted(es)
  {
    if es != [] {
      var p, e := es[..|es| - 1], es[|es| - 1];
      WrittenAreAccepted(p);
      RunKeeps(p);
      StepAccepts(Exec(p), e);
    }
  }

  /** A call that has the lock completes its own message and frees the lock, whatever the others try. */
  lemma HolderCompletes(s: State, c: nat, t: int, d: Bytes)
    requires WriterInv(s) && PcOf(s, c) == Locked(t, d)
    ensures var s' := Next(Next(Next(Next(s, WriteHeader(c)), WriteData(c)), Flush(c)), Unlock(c));
            && s'.holder.Nobody? && s'.done == s.done + [(t, d)] && s'.flushed == |s'.stream|
            && s'.stream == s.stream + ServerFrame(t, d) && PcOf(s', c).Idle?
  {
    assert s.holder == Caller(c);
    assert s.stream + Header(t, d) + d == s.stream + (Header(t, d) + d);
  }
}
