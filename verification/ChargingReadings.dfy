/**
 * Where the telemetry rows of the charging protocol come from: each row goes back to a MeterGet of its own, at the run
 * position it carries, that found the context of its transaction open.
 */
module ChargingReadings {
  import opened Charging
  import opened ChargingIdentity
  import opened SessionTable

  /** Label k is a MeterGet of (tx, kwh) that finds tx's context stored, with that session id. */
  ghost predicate ArrivedAt(es: seq<Step>, k: nat, tx: Tx, kwh: real, sessionId: int) {
    && k < |es|
    && es[k].MeterGet? && es[k].tx == tx && es[k].kwh == kwh
    && var s := Before(es, k);
       PcOf(s, es[k].conn).Idle? && tx in s.store && s.store[tx].sessionId == sessionId
  }

  lemma ArrivedExtends(es: seq<Step>, e: Step, k: nat, tx: Tx, kwh: real, sessionId: int)
    requires ArrivedAt(es, k, tx, kwh, sessionId)
    ensures ArrivedAt(es + [e], k, tx, kwh, sessionId)
  {
    assert (es + [e])[..k] == es[..k];
  }

  // ----- Every reading is in one place -----

  /** Where the reading that arrived at a run position is: with a handler, in flight, or filed. */
  datatype Place = AtConn(conn: ConnId) | AtCall(call: nat) | AtRow(row: nat)

  ghost predicate ConnTraced(es: seq<Step>, pc: Pc, place: map<nat, Place>, c: ConnId) {
    pc.PostingMeter? ==>
      ArrivedAt(es, pc.at, pc.tx, pc.kwh, pc.sessionId) && pc.at in place && place[pc.at] == AtConn(c)
  }

  ghost predicate CallTraced(es: seq<Step>, r: Request, place: map<nat, Place>, k: nat) {
    r.MeterRequest? ==>
      ArrivedAt(es, r.at, r.tx, r.kwh, r.sessionId) && r.at in place && place[r.at] == AtCall(k)
  }

  ghost predicate RowTraced(es: seq<Step>, r: Reading, place: map<nat, Place>, n: nat) {
    ArrivedAt(es, r.at, r.tx, r.kwh, r.sessionId) && r.at in place && place[r.at] == AtRow(n)
  }

  ghost predicate Traced(es: seq<Step>, s: System, place: map<nat, Place>) {
    && s.clock == |es|
    && (forall k :: k in s.net ==> k < s.nextCall)
    && (forall c :: c in s.conns ==> ConnTraced(es, s.conns[c], place, c))
    && (forall k :: k in s.net ==> CallTraced(es, s.net[k], place, k))
    && (forall n :: 0 <= n < |s.readings| ==> RowTraced(es, s.readings[n], place, n))
  }

  /** The readings a step does not touch stay traced while the run grows by e; `moved` is the position that moved. */
  lemma TracedGrows(es: seq<Step>, s: System, e: Step, place: map<nat, Place>, moved: nat, to: Place)
    requires Traced(es, s, place)
    ensures forall c :: c in s.conns && (s.conns[c].PostingMeter? ==> s.conns[c].at != moved) ==>
              ConnTraced(es + [e], s.conns[c], place[moved := to], c)
    ensures forall k :: k in s.net && (s.net[k].MeterRequest? ==> s.net[k].at != moved) ==>
              CallTraced(es + [e], s.net[k], place[moved := to], k)
    ensures forall n :: 0 <= n < |s.readings| && s.readings[n].at != moved ==>
              RowTraced(es + [e], s.readings[n], place[moved := to], n)
  {
    forall c | c in s.conns && (s.conns[c].PostingMeter? ==> s.conns[c].at != moved)
      ensures ConnTraced(es + [e], s.conns[c], place[moved := to], c)
    {
      var pc := s.conns[c];
      if pc.PostingMeter? {
        assert ConnTraced(es, pc, place, c);
        ArrivedExtends(es, e, pc.at, pc.tx, pc.kwh, pc.sessionId);
      }
    }
    forall k | k in s.net && (s.net[k].MeterRequest? ==> s.net[k].at != moved)
      ensures CallTraced(es + [e], s.net[k], place[moved := to], k)
    {
      var r := s.net[k];
      if r.MeterRequest? {
        assert CallTraced(es, r, place, k);
        ArrivedExtends(es, e, r.at, r.tx, r.kwh, r.sessionId);
      }
    }
    forall n | 0 <= n < |s.readings| && s.readings[n].at != moved
      ensures RowTraced(es + [e], s.readings[n], place[moved := to], n)
    {
      var r := s.readings[n];
      assert RowTraced(es, r, place, n);
      ArrivedExtends(es, e, r.at, r.tx, r.kwh, r.sessionId);
    }
  }

  /** A step that brings no reading in and moves none. */
  ghost predicate Calm(s: System, s': System) {
    && s'.readings == s.readings && s'.clock == s.clock && s.nextCall <= s'.nextCall
    && (forall c :: c in s'.conns && s'.conns[c].PostingMeter? ==> c in s.conns && s'.conns[c] == s.conns[c])
    && (forall k :: k in s'.net ==> k < s'.nextCall)
    && (forall k :: k in s'.net && s'.net[k].MeterRequest? ==> k in s.net && s'.net[k] == s.net[k])
  }

  /** No reading can have arrived at a position the run has not reached. */
  lemma CalmTraced(es: seq<Step>, s: System, s': System, e: Step, place: map<nat, Place>)
    requires Traced(es, s, place) && Calm(s, s')
    ensures Traced(es + [e], Tick(s'), place[|es| := AtRow(0)])
  {
    Unreached(es, s, place);
    TracedGrows(es, s, e, place, |es|, AtRow(0));
  }

  lemma Unreached(es: seq<Step>, s: System, place: map<nat, Place>)
    requires Traced(es, s, place)
    ensures forall c :: c in s.conns && s.conns[c].PostingMeter? ==> s.conns[c].at < |es|
    ensures forall k :: k in s.net && s.net[k].MeterRequest? ==> s.net[k].at < |es|
    ensures forall n :: 0 <= n < |s.readings| ==> s.readings[n].at < |es|
  {
    forall c | c in s.conns && s.conns[c].PostingMeter? ensures s.conns[c].at < |es| {
      assert ConnTraced(es, s.conns[c], place, c);
    }
    forall k | k in s.net && s.net[k].MeterRequest? ensures s.net[k].at < |es| {
      assert CallTraced(es, s.net[k], place, k);
    }
    forall n | 0 <= n < |s.readings| ensures s.readings[n].at < |es| {
      assert RowTraced(es, s.readings[n], place, n);
    }
  }

  lemma ArrivesNow(es: seq<Step>, e: Step)
    requires e.MeterGet? && PcOf(Exec(es), e.conn).Idle? && e.tx in Exec(es).store
    ensures ArrivedAt(es + [e], |es|, e.tx, e.kwh, Exec(es).store[e.tx].sessionId)
  {
    assert (es + [e])[..|es|] == es;
  }

  /** A reading arrives: its handler holds it, traced to the label itself. */
  lemma MeterGetTraced(es: seq<Step>, s: System, e: Step, place: map<nat, Place>)
    requires Traced(es, s, place) && e.MeterGet?
    requires PcOf(s, e.conn).Idle? && e.tx in s.store && s.store[e.tx].sessionId != 0
    requires ArrivedAt(es + [e], |es|, e.tx, e.kwh, s.store[e.tx].sessionId)
    ensures Traced(es + [e], Next(s, e), place[|es| := AtConn(e.conn)])
  {
    Unreached(es, s, place);
    TracedGrows(es, s, e, place, |es|, AtConn(e.conn));
  }

  /** Positions of readings in different places differ. */
  lemma OnePlace(es: seq<Step>, s: System, place: map<nat, Place>, at: nat)
    requires Traced(es, s, place) && at in place
    ensures forall c :: c in s.conns && s.conns[c].PostingMeter? && s.conns[c].at == at ==> place[at] == AtConn(c)
    ensures forall k :: k in s.net && s.net[k].MeterRequest? && s.net[k].at == at ==> place[at] == AtCall(k)
    ensures forall n :: 0 <= n < |s.readings| && s.readings[n].at == at ==> place[at] == AtRow(n)
  {
    forall c | c in s.conns && s.conns[c].PostingMeter? && s.conns[c].at == at ensures place[at] == AtConn(c) {
      assert ConnTraced(es, s.conns[c], place, c);
    }
    forall k | k in s.net && s.net[k].MeterRequest? && s.net[k].at == at ensures place[at] == AtCall(k) {
      assert CallTraced(es, s.net[k], place, k);
    }
    forall n | 0 <= n < |s.readings| && s.readings[n].at == at ensures place[at] == AtRow(n) {
      assert RowTraced(es, s.readings[n], place, n);
    }
  }

  /** Posting a reading moves it from its handler into flight. */
  lemma PostMeterTraced(es: seq<Step>, s: System, e: Step, place: map<nat, Place>)
    requires Traced(es, s, place) && e.PostMeter? && PcOf(s, e.conn).PostingMeter?
    ensures Traced(es + [e], Next(s, e), place[PcOf(s, e.conn).at := AtCall(s.nextCall)])
  {
    var pc := s.conns[e.conn];
    assert ConnTraced(es, pc, place, e.conn);
    OnePlace(es, s, place, pc.at);
    TracedGrows(es, s, e, place, pc.at, AtCall(s.nextCall));
    ArrivedExtends(es, e, pc.at, pc.tx, pc.kwh, pc.sessionId);
  }

  /** Filing a reading moves it from flight into the telemetry table. */
  lemma ServeMeterTraced(es: seq<Step>, s: System, e: Step, place: map<nat, Place>)
    requires Traced(es, s, place) && e.ServeMeter? && e.dbOk && e.call in s.net && s.net[e.call].MeterRequest?
    ensures Traced(es + [e], Next(s, e), place[s.net[e.call].at := AtRow(|s.readings|)])
  {
    var r := s.net[e.call];
    assert CallTraced(es, r, place, e.call);
    OnePlace(es, s, place, r.at);
    TracedGrows(es, s, e, place, r.at, AtRow(|s.readings|));
    ArrivedExtends(es, e, r.at, r.tx, r.kwh, r.sessionId);
  }

  ghost predicate MovesReading(s: System, e: Step) {
    || (e.MeterGet? && PcOf(s, e.conn).Idle? && e.tx in s.store && s.store[e.tx].sessionId != 0)
    || (e.PostMeter? && PcOf(s, e.conn).PostingMeter?)
    || (e.ServeMeter? && e.dbOk && e.call in s.net && s.net[e.call].MeterRequest?)
  }

  lemma ConnCalm(s: System, s': System, c: ConnId, pc: Pc)
    requires (forall k :: k in s.net ==> k < s.nextCall) && !pc.PostingMeter?
    requires s'.conns == s.conns[c := pc] && s'.net == s.net && s'.readings == s.readings
    requires s'.clock == s.clock && s'.nextCall == s.nextCall
    ensures Calm(s, s')
  {
  }

  lemma PostCalm(s: System, c: ConnId, r: Request, pc: Pc)
    requires (forall k :: k in s.net ==> k < s.nextCall) && !pc.PostingMeter? && !r.MeterRequest?
    ensures Calm(s, Post(s, c, r, pc))
  {
  }

  lemma DropCalm(s: System, s': System, k: nat)
    requires (forall j :: j in s.net ==> j < s.nextCall) && s'.net == s.net - {k} && s'.conns == s.conns
    requires s'.readings == s.readings && s'.clock == s.clock && s'.nextCall == s.nextCall
    ensures Calm(s, s')
  {
  }

  lemma PostsCalm(s: System, e: Step)
    requires (e.ReceiveStart? || e.PostStop? || e.PostBill?) && forall k :: k in s.net ==> k < s.nextCall
    ensures Calm(s, Act(s, e))
  {
    var pc := PcOf(s, e.conn);
    match e
    case ReceiveStart(c, station, connector, requested, generated, m) =>
      var tx := StartTx(requested, generated);
      PostCalm(s, c, StartRequest(tx, station, connector), AwaitSession(tx, m, s.nextCall));
    case PostStop(c) =>
      if pc.PostingOrphanStop? {
        PostCalm(s, c, StopRequest(pc.tx, 0), Idle);
      } else if pc.PostingStop? {
        PostCalm(s, c, StopRequest(pc.tx, pc.energyWh),
                 if pc.sessionId > 0 then PostingBill(pc.tx, pc.sessionId, pc.energyWh, pc.stop) else Idle);
      }
    case PostBill(c) =>
      if pc.PostingBill? { PostCalm(s, c, BillRequest(pc.sessionId, pc.energyWh, pc.stop), Idle); }
  }

  lemma StartCalm(s: System, e: Step)
    requires e.StartReplied? || e.StartGivenUp? || e.StoreSet?
    requires forall k :: k in s.net ==> k < s.nextCall
    ensures Calm(s, Act(s, e))
  {
    var s' := Act(s, e);
    if s' != s {
      ConnCalm(s, s', e.conn, s'.conns[e.conn]);
    }
  }

  lemma StopCalm(s: System, e: Step)
    requires e.StopGet? || e.StopDelete?
    requires forall k :: k in s.net ==> k < s.nextCall
    ensures Calm(s, Act(s, e))
  {
    var s' := Act(s, e);
    if s' != s {
      ConnCalm(s, s', e.conn, s'.conns[e.conn]);
    }
  }

  lemma ServeStartCalm(s: System, k: nat, dbOk: bool)
    requires forall j :: j in s.net ==> j < s.nextCall
    ensures Calm(s, OnServeStart(s, k, dbOk))
  {
    if k in s.net && s.net[k].StartRequest? { DropCalm(s, OnServeStart(s, k, dbOk), k); }
  }

  lemma ServeStopCalm(s: System, k: nat, dbOk: bool)
    requires forall j :: j in s.net ==> j < s.nextCall
    ensures Calm(s, OnServeStop(s, k, dbOk))
  {
    if k in s.net && s.net[k].StopRequest? { DropCalm(s, OnServeStop(s, k, dbOk), k); }
  }

  lemma ServeBillCalm(s: System, e: Step)
    requires e.ServeBill? && forall j :: j in s.net ==> j < s.nextCall
    ensures Calm(s, Act(s, e))
  {
    if e.call in s.net && s.net[e.call].BillRequest? { DropCalm(s, Act(s, e), e.call); }
  }

  lemma ServeMeterCalm(s: System, e: Step)
    requires e.ServeMeter? && !MovesReading(s, e) && forall j :: j in s.net ==> j < s.nextCall
    ensures Calm(s, Act(s, e))
  {
    if e.call in s.net && s.net[e.call].MeterRequest? { DropCalm(s, Act(s, e), e.call); }
  }

  lemma OtherStepsCalm(s: System, e: Step)
    requires !MovesReading(s, e) && forall k :: k in s.net ==> k < s.nextCall
    ensures Calm(s, Act(s, e))
  {
    match e
    case MeterGet(_, _, _) =>
    case PostMeter(_) =>
    case Restart =>
    case ReceiveStart(_, _, _, _, _, _) => PostsCalm(s, e);
    case PostStop(_) => PostsCalm(s, e);
    case PostBill(_) => PostsCalm(s, e);
    case ServeStart(k, dbOk) => ServeStartCalm(s, k, dbOk);
    case ServeStop(k, dbOk) => ServeStopCalm(s, k, dbOk);
    case ServeBill(_, _, _, _) => ServeBillCalm(s, e);
    case ServeMeter(_, _) => ServeMeterCalm(s, e);
    case StopGet(_, _, _) => StopCalm(s, e);
    case StopDelete(_) => StopCalm(s, e);
    case _ => StartCalm(s, e);
  }

  lemma {:induction false} RunTraced(es: seq<Step>) returns (place: map<nat, Place>)
    ensures Traced(es, Exec(es), place)
  {
    if es == [] {
      place := map[];
    } else {
      var p, e := es[..|es| - 1], es[|es| - 1];
      var before := RunTraced(p);
      var s := Exec(p);
      assert es == p + [e];
      if !MovesReading(s, e) {
        OtherStepsCalm(s, e);
        CalmTraced(p, s, Act(s, e), e, before);
        place := before[|p| := AtRow(0)];
      } else if e.MeterGet? {
        ArrivesNow(p, e);
        MeterGetTraced(p, s, e, before);
        place := before[|p| := AtConn(e.conn)];
      } else if e.PostMeter? {
        PostMeterTraced(p, s, e, before);
        place := before[PcOf(s, e.conn).at := AtCall(s.nextCall)];
      } else {
        ServeMeterTraced(p, s, e, before);
        place := before[s.net[e.call].at := AtRow(|s.readings|)];
      }
    }
  }

  /**
   * For every run, every telemetry row is a reading of its own: the label at the position it carries is a MeterGet of
   * exactly that transaction and value, which found the context stored with exactly that session id; and no two rows
   * come from one MeterGet.
   */
  lemma EveryRowArrivedOpen(es: seq<Step>)
    ensures var rows := Exec(es).readings;
            && (forall i :: 0 <= i < |rows| ==> ArrivedAt(es, rows[i].at, rows[i].tx, rows[i].kwh, rows[i].sessionId))
            && (forall i, j :: 0 <= i < j < |rows| ==> rows[i].at != rows[j].at)
  {
    var place := RunTraced(es);
    var rows := Exec(es).readings;
    forall i | 0 <= i < |rows| ensures ArrivedAt(es, rows[i].at, rows[i].tx, rows[i].kwh, rows[i].sessionId) {
      assert RowTraced(es, rows[i], place, i);
    }
    forall i, j | 0 <= i < j < |rows| ensures rows[i].at != rows[j].at {
      assert RowTraced(es, rows[i], place, i) && RowTraced(es, rows[j], place, j);
    }
  }

  /**
   * Session identity, over every run with lost calls, lost replies and restarts: every non-zero session id in the
   * transaction store is its transaction's row id, distinct transactions have distinct ids, and every telemetry row is
   * filed under the row id of a transaction whose context was open, with that id, when that reading arrived.
   */
  lemma SessionIdentity(es: seq<Step>)
    ensures var s := Exec(es);
            && (forall tx :: tx in s.store && s.store[tx].sessionId != 0 ==>
                  tx in s.table.rows && s.table.rows[tx].id == s.store[tx].sessionId)
            && (forall x, y :: x in s.table.rows && y in s.table.rows && x != y ==> s.table.rows[x].id != s.table.rows[y].id)
            && (forall i :: 0 <= i < |s.readings| ==>
                  var r := s.readings[i];
                  && r.tx in s.table.rows && r.sessionId == s.table.rows[r.tx].id
                  && ArrivedAt(es, r.at, r.tx, r.kwh, r.sessionId))
            && (forall i, j :: 0 <= i < j < |s.readings| ==> s.readings[i].at != s.readings[j].at)
  {
    RunIdentified(es);
    EveryRowArrivedOpen(es);
  }
}
