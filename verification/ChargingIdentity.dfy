/**
 * Session identity: in every reachable state of the charging protocol, a session id held anywhere for a transaction is
 * the id of that transaction's row, and ids never change.
 */
module ChargingIdentity {
  import opened Charging
  import opened Meter
  import opened SessionTable

  ghost predicate PcNamed(s: System, pc: Pc) {
    match pc
    case Idle => true
    case AwaitSession(tx, _, k) =>
      && k < s.nextCall
      && (k in s.net ==> s.net[k].StartRequest? && s.net[k].tx == tx)
      && (k in s.replies ==> Names(s.table, tx, s.replies[k]))
    case StoringContext(tx, ctx) => Names(s.table, tx, ctx.sessionId)
    case PostingOrphanStop(_) => true
    case PostingMeter(tx, sid, _, _) => sid != 0 && Names(s.table, tx, sid)
    case DeletingContext(tx, sid, _, _) => Names(s.table, tx, sid)
    case PostingStop(tx, sid, _, _) => Names(s.table, tx, sid)
    case PostingBill(tx, sid, _, _) => Names(s.table, tx, sid)
  }

  ghost predicate RequestNamed(t: Table, r: Request) {
    r.MeterRequest? ==> r.sessionId != 0 && Names(t, r.tx, r.sessionId)
  }

  /** The identity invariant. */
  ghost predicate Identified(s: System) {
    && Wf(s.table)
    && s.store.Keys == s.origin.Keys
    && (forall k :: k in s.net || k in s.replies ==> k < s.nextCall)
    && (forall tx :: tx in s.store ==> Names(s.table, tx, s.store[tx].sessionId))
    && (forall c :: c in s.conns ==> PcNamed(s, s.conns[c]))
    && (forall k :: k in s.net ==> RequestNamed(s.table, s.net[k]))
    && (forall i :: 0 <= i < |s.readings| ==> s.readings[i].sessionId != 0 && Names(s.table, s.readings[i].tx, s.readings[i].sessionId))
  }

  // ----- Each shared operation keeps the invariant -----

  lemma AtIdentified(s: System, c: ConnId, pc: Pc)
    requires Identified(s) && PcNamed(s, pc)
    ensures Identified(At(s, c, pc))
  {
    var s' := At(s, c, pc);
    forall d | d in s'.conns ensures PcNamed(s', s'.conns[d]) {
      assert PcNamed(s, s'.conns[d]);
    }
  }

  lemma PostIdentified(s: System, c: ConnId, r: Request, pc: Pc)
    requires Identified(s) && RequestNamed(s.table, r)
    requires if pc.AwaitSession? then r.StartRequest? && pc.tx == r.tx && pc.call == s.nextCall else PcNamed(s, pc)
    ensures Identified(Post(s, c, r, pc))
  {
    var s' := Post(s, c, r, pc);
    forall d | d in s'.conns ensures PcNamed(s', s'.conns[d]) {
      assert d != c ==> PcNamed(s, s.conns[d]);
    }
  }

  lemma DropIdentified(s: System, k: nat)
    requires Identified(s)
    ensures Identified(Drop(s, k))
  {
    var s' := Drop(s, k);
    forall d | d in s'.conns ensures PcNamed(s', s'.conns[d]) {
      assert PcNamed(s, s.conns[d]);
    }
  }

  /** The table may grow as long as it stays well formed and keeps its ids. */
  lemma TableIdentified(s: System, t: Table)
    requires Identified(s) && Wf(t) && KeepsIds(s.table, t)
    ensures Identified(s.(table := t))
  {
    var s' := s.(table := t);
    forall d | d in s'.conns ensures PcNamed(s', s'.conns[d]) {
      assert PcNamed(s, s.conns[d]);
    }
    forall k | k in s'.net ensures RequestNamed(t, s'.net[k]) {
      assert RequestNamed(s.table, s.net[k]);
    }
  }

  /** A reply may be added for a call that is no longer in flight and whose waiting handler it names correctly. */
  lemma ReplyIdentified(s: System, k: nat, sessionId: int)
    requires Identified(s) && k < s.nextCall
    requires forall d :: d in s.conns && s.conns[d].AwaitSession? && s.conns[d].call == k ==> Names(s.table, s.conns[d].tx, sessionId)
    ensures Identified(s.(replies := s.replies[k := sessionId]))
  {
    var s' := s.(replies := s.replies[k := sessionId]);
    forall d | d in s'.conns ensures PcNamed(s', s'.conns[d]) {
      assert PcNamed(s, s.conns[d]);
    }
  }

  lemma SetContextIdentified(s: System, tx: Tx, ctx: Context)
    requires Identified(s) && Names(s.table, tx, ctx.sessionId)
    ensures Identified(SetContext(s, tx, ctx))
  {
    var s' := SetContext(s, tx, ctx);
    forall d | d in s'.conns ensures PcNamed(s', s'.conns[d]) {
      assert PcNamed(s, s.conns[d]);
    }
  }

  lemma DeleteContextIdentified(s: System, tx: Tx)
    requires Identified(s)
    ensures Identified(DeleteContext(s, tx))
  {
    var s' := DeleteContext(s, tx);
    forall d | d in s'.conns ensures PcNamed(s', s'.conns[d]) {
      assert PcNamed(s, s.conns[d]);
    }
  }

  /** History and ledger are not part of the invariant; a new reading must be named. */
  lemma RecordIdentified(s: System, ledger: seq<Entry>, log: seq<Event>)
    requires Identified(s)
    ensures Identified(s.(ledger := ledger)) && Identified(s.(log := log))
  {
    var s', s'' := s.(ledger := ledger), s.(log := log);
    forall d | d in s.conns ensures PcNamed(s', s.conns[d]) && PcNamed(s'', s.conns[d]) {
      assert PcNamed(s, s.conns[d]);
    }
  }

  lemma ReadingIdentified(s: System, r: Reading)
    requires Identified(s) && r.sessionId != 0 && Names(s.table, r.tx, r.sessionId)
    ensures Identified(s.(readings := s.readings + [r]))
  {
    var s' := s.(readings := s.readings + [r]);
    forall d | d in s.conns ensures PcNamed(s', s.conns[d]) {
      assert PcNamed(s, s.conns[d]);
    }
  }

  // ----- Each step keeps the invariant -----

  lemma ServeStartIdentified(s: System, k: nat, dbOk: bool)
    requires Identified(s)
    ensures Identified(OnServeStart(s, k, dbOk)) && KeepsIds(s.table, OnServeStart(s, k, dbOk).table)
  {
    if k in s.net && s.net[k].StartRequest? {
      var r := s.net[k];
      DropIdentified(s, k);
      if dbOk && r.tx != "" {
        UpsertKeeps(s.table, r.tx, r.station, r.connector);
        var t := Upsert(s.table, r.tx, r.station, r.connector);
        TableIdentified(Drop(s, k), t);
        var s1 := Drop(s, k).(table := t);
        forall d | d in s1.conns && s1.conns[d].AwaitSession? && s1.conns[d].call == k
          ensures Names(t, s1.conns[d].tx, t.rows[r.tx].id)
        {
          assert PcNamed(s, s.conns[d]);
        }
        ReplyIdentified(s1, k, t.rows[r.tx].id);
      }
    }
  }

  lemma ServeStopIdentified(s: System, k: nat, dbOk: bool)
    requires Identified(s)
    ensures Identified(OnServeStop(s, k, dbOk)) && KeepsIds(s.table, OnServeStop(s, k, dbOk).table)
  {
    if k in s.net && s.net[k].StopRequest? {
      DropIdentified(s, k);
      CompleteKeeps(s.table, s.net[k].tx, s.net[k].energyWh);
      TableIdentified(Drop(s, k), Complete(s.table, s.net[k].tx, s.net[k].energyWh));
    }
  }

  lemma ServeRecordIdentified(s: System, e: Step)
    requires Identified(s) && (e.ServeBill? || e.ServeMeter?)
    ensures Identified(Act(s, e)) && Act(s, e).table == s.table
  {
    if e.call in s.net {
      DropIdentified(s, e.call);
      assert RequestNamed(s.table, s.net[e.call]);
      RecordIdentified(Drop(s, e.call), Act(s, e).ledger, s.log);
      if s.net[e.call].MeterRequest? {
        ReadingIdentified(Drop(s, e.call), Reading(s.net[e.call].sessionId, s.net[e.call].tx, s.net[e.call].kwh, s.net[e.call].at));
      }
    }
  }

  lemma StopGetIdentified(s: System, c: ConnId, tx: Tx, meterStop: int64)
    requires Identified(s)
    ensures Identified(OnStopGet(s, c, tx, meterStop))
  {
    AtIdentified(s, c, PostingOrphanStop(tx));
    if tx in s.store && tx in s.origin {
      var log := s.log + [Consumed(tx, meterStop, s.origin[tx])];
      RecordIdentified(s, s.ledger, log);
      AtIdentified(s.(log := log), c, DeletingContext(tx, s.store[tx].sessionId, EnergyWh(meterStop, s.store[tx].meterStart), |s.log|));
    }
  }

  /** A step of a Start's handler, or the posting of a reading. */
  lemma StartHandlerIdentified(s: System, e: Step)
    requires Identified(s)
    requires e.ReceiveStart? || e.StartReplied? || e.StartGivenUp? || e.StoreSet? || e.PostMeter?
    ensures Identified(Act(s, e)) && Act(s, e).table == s.table
  {
    var c := e.conn;
    var pc := PcOf(s, c);
    assert PcNamed(s, pc);
    match e
    case ReceiveStart(_, station, connector, requested, generated, m) =>
      var tx := StartTx(requested, generated);
      PostIdentified(s, c, StartRequest(tx, station, connector), AwaitSession(tx, m, s.nextCall));
    case StartReplied(_) =>
      if pc.AwaitSession? && pc.call in s.replies {
        AtIdentified(s, c, StoringContext(pc.tx, Context(s.replies[pc.call], pc.meterStart)));
      }
    case StartGivenUp(_) =>
      if pc.AwaitSession? { AtIdentified(s, c, StoringContext(pc.tx, Context(0, pc.meterStart))); }
    case StoreSet(_) =>
      if pc.StoringContext? {
        SetContextIdentified(s, pc.tx, pc.ctx);
        AtIdentified(SetContext(s, pc.tx, pc.ctx), c, Idle);
      }
    case PostMeter(_) =>
      if pc.PostingMeter? { PostIdentified(s, c, MeterRequest(pc.sessionId, pc.tx, pc.kwh, pc.at), Idle); }
  }

  /** A step of a Stop's handler after its Get. */
  lemma StopHandlerIdentified(s: System, e: Step)
    requires Identified(s) && (e.StopDelete? || e.PostStop? || e.PostBill?)
    ensures Identified(Act(s, e)) && Act(s, e).table == s.table
  {
    var c := e.conn;
    var pc := PcOf(s, c);
    assert PcNamed(s, pc);
    match e
    case StopDelete(_) =>
      if pc.DeletingContext? {
        DeleteContextIdentified(s, pc.tx);
        AtIdentified(DeleteContext(s, pc.tx), c, PostingStop(pc.tx, pc.sessionId, pc.energyWh, pc.stop));
      }
    case PostStop(_) =>
      if pc.PostingOrphanStop? {
        PostIdentified(s, c, StopRequest(pc.tx, 0), Idle);
      } else if pc.PostingStop? {
        PostIdentified(s, c, StopRequest(pc.tx, pc.energyWh),
                       if pc.sessionId > 0 then PostingBill(pc.tx, pc.sessionId, pc.energyWh, pc.stop) else Idle);
      }
    case PostBill(_) =>
      if pc.PostingBill? { PostIdentified(s, c, BillRequest(pc.sessionId, pc.energyWh, pc.stop), Idle); }
  }

  lemma MeterGetIdentified(s: System, c: ConnId, tx: Tx, kwh: real)
    requires Identified(s)
    ensures Identified(OnMeterGet(s, c, tx, kwh))
  {
    if tx in s.store && s.store[tx].sessionId != 0 {
      AtIdentified(s, c, PostingMeter(tx, s.store[tx].sessionId, kwh, s.clock));
    }
  }

  lemma RestartIdentified(s: System)
    requires Identified(s)
    ensures Identified(OnRestart(s))
  {
  }

  /** A step of a service. */
  lemma ServiceIdentified(s: System, e: Step)
    requires Identified(s) && (e.ServeStart? || e.ServeStop? || e.ServeBill? || e.ServeMeter?)
    ensures Identified(Act(s, e)) && KeepsIds(s.table, Act(s, e).table)
  {
    match e
    case ServeStart(k, dbOk) => ServeStartIdentified(s, k, dbOk);
    case ServeStop(k, dbOk) => ServeStopIdentified(s, k, dbOk);
    case _ => ServeRecordIdentified(s, e);
  }

  lemma ActIdentified(s: System, e: Step)
    requires Identified(s)
    ensures Identified(Act(s, e)) && KeepsIds(s.table, Act(s, e).table)
  {
    if e.ServeStart? || e.ServeStop? || e.ServeBill? || e.ServeMeter? {
      ServiceIdentified(s, e);
    } else if e.StopGet? {
      StopGetIdentified(s, e.conn, e.tx, e.meterStop);
    } else if e.MeterGet? {
      MeterGetIdentified(s, e.conn, e.tx, e.kwh);
    } else if e.Restart? {
      RestartIdentified(s);
    } else if OfStop(e) {
      StopHandlerIdentified(s, e);
    } else {
      StartHandlerIdentified(s, e);
    }
  }

  /** The clock is not part of the invariant. */
  lemma TickIdentified(s: System)
    requires Identified(s)
    ensures Identified(Tick(s))
  {
    forall d | d in s.conns ensures PcNamed(Tick(s), s.conns[d]) {
      assert PcNamed(s, s.conns[d]);
    }
  }

  /** Every step keeps the invariant, every row and every session id. */
  lemma StepIdentified(s: System, e: Step)
    requires Identified(s)
    ensures Identified(Next(s, e)) && KeepsIds(s.table, Next(s, e).table)
  {
    ActIdentified(s, e);
    TickIdentified(Act(s, e));
  }

  lemma {:induction false} RunIdentified(es: seq<Step>)
    ensures Identified(Exec(es))
  {
    if es != [] {
      RunIdentified(es[..|es| - 1]);
      StepIdentified(Exec(es[..|es| - 1]), es[|es| - 1]);
    }
  }

  lemma LastStepKeepsIds(es: seq<Step>)
    requires es != []
    ensures KeepsIds(Exec(es[..|es| - 1]).table, Exec(es).table)
  {
    RunIdentified(es[..|es| - 1]);
    StepIdentified(Exec(es[..|es| - 1]), es[|es| - 1]);
  }

  /** Between any two points of any run no session row is lost and no id changes. */
  lemma {:induction false} IdsNeverChange(es: seq<Step>, i: nat, j: nat)
    requires i <= j <= |es|
    ensures KeepsIds(Before(es, i).table, Before(es, j).table)
    decreases j
  {
    if i < j {
      IdsNeverChange(es, i, j - 1);
      LastStepKeepsIds(es[..j]);
      assert es[..j][..j - 1] == es[..j - 1];
    }
  }
}
