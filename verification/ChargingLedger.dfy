/**
 * The billing ledger of the charging protocol, over every run: which Start every ledger row is paid from, when a context
 * can be billed twice, and where the billed energy comes from.
 */
module ChargingLedger {
  import opened Billing
  import opened Charging
  import opened Meter
  import opened SessionTable
  import ChargingIdentity

  // ----- The history -----

  ghost predicate IsStartOf(e: Event, tx: Tx) { e.Started? && e.tx == tx }

  /** o is the latest Start of tx before position i. */
  ghost predicate LatestStart(log: seq<Event>, o: nat, i: nat, tx: Tx) {
    && o < i <= |log|
    && IsStartOf(log[o], tx)
    && (forall j :: o < j < i ==> !IsStartOf(log[j], tx))
  }

  /** The context a logged Stop read. */
  ghost function PaidFrom(log: seq<Event>, stop: nat): Context
    requires stop < |log| && log[stop].Consumed? && log[stop].origin < |log| && log[log[stop].origin].Started?
  {
    log[log[stop].origin].ctx
  }

  /** Every Stop that read a context read that of the latest preceding Start, and so does the store. */
  ghost predicate Logged(s: System) {
    && s.store.Keys == s.origin.Keys
    && (forall i :: 0 <= i < |s.log| && s.log[i].Consumed? ==> LatestStart(s.log, s.log[i].origin, i, s.log[i].tx))
    && (forall tx :: tx in s.store ==> LatestStart(s.log, s.origin[tx], |s.log|, tx) && s.log[s.origin[tx]].ctx == s.store[tx])
  }

  lemma LatestStartExtends(log: seq<Event>, e: Event, o: nat, i: nat, tx: Tx)
    requires LatestStart(log, o, i, tx)
    ensures LatestStart(log + [e], o, i, tx)
    ensures i == |log| && !IsStartOf(e, tx) ==> LatestStart(log + [e], o, i + 1, tx)
  {
  }

  // ----- The work a Stop leaves behind -----

  /** Where the work left by a logged Stop is: with a handler, in flight, or in the ledger. */
  datatype Place = AtConn(conn: ConnId) | AtCall(call: nat) | AtRow(row: nat)

  predicate WorksOff(pc: Pc) { pc.DeletingContext? || pc.PostingStop? || pc.PostingBill? }

  /** The session and the energy owed for the Stop at log position stop. */
  ghost predicate Owed(log: seq<Event>, stop: nat, sessionId: int, energyWh: int) {
    && stop < |log| && log[stop].Consumed?
    && log[stop].origin < stop && log[log[stop].origin].Started?
    && sessionId == PaidFrom(log, stop).sessionId
    && energyWh == EnergyWh(log[stop].meterStop, PaidFrom(log, stop).meterStart)
  }

  ghost predicate ConnPlaced(s: System, place: map<nat, Place>, c: ConnId)
    requires c in s.conns
  {
    var pc := s.conns[c];
    && (WorksOff(pc) ==>
          && Owed(s.log, pc.stop, pc.sessionId, pc.energyWh) && s.log[pc.stop].tx == pc.tx
          && pc.stop in place && place[pc.stop] == AtConn(c))
    && (pc.PostingBill? ==> pc.sessionId > 0)
  }

  ghost predicate CallPlaced(s: System, place: map<nat, Place>, k: nat)
    requires k in s.net
  {
    var r := s.net[k];
    r.BillRequest? ==>
      r.sessionId > 0 && Owed(s.log, r.stop, r.sessionId, r.energyWh) && r.stop in place && place[r.stop] == AtCall(k)
  }

  ghost predicate RowPlaced(s: System, place: map<nat, Place>, n: nat)
    requires n < |s.ledger|
  {
    var b := s.ledger[n].bill;
    && b.sessionId > 0 && Sound(b)
    && Owed(s.log, s.ledger[n].stop, b.sessionId, b.energyWh)
    && s.ledger[n].stop in place && place[s.ledger[n].stop] == AtRow(n)
  }

  ghost predicate Placed(s: System, place: map<nat, Place>) {
    && (forall c :: c in s.conns ==> ConnPlaced(s, place, c))
    && (forall k :: k in s.net ==> CallPlaced(s, place, k) && k < s.nextCall)
    && (forall n :: 0 <= n < |s.ledger| ==> RowPlaced(s, place, n))
  }

  /** While a context that some Stop has read is still stored, that Stop is between its Get and its Delete. */
  ghost predicate StillDeleting(s: System, place: map<nat, Place>) {
    forall i :: 0 <= i < |s.log| && s.log[i].Consumed? && s.log[i].tx in s.origin && s.origin[s.log[i].tx] == s.log[i].origin ==>
      && i in place && place[i].AtConn? && place[i].conn in s.conns
      && s.conns[place[i].conn].DeletingContext? && s.conns[place[i].conn].stop == i
  }

  ghost predicate LedgerInv(s: System, place: map<nat, Place>) {
    Logged(s) && Placed(s, place) && StillDeleting(s, place)
  }

  // ----- Steps -----

  /** A step that leaves log, store, ledger and all the work in place. */
  ghost predicate Quiet(s: System, s': System) {
    && s'.log == s.log && s'.store == s.store && s'.origin == s.origin && s'.ledger == s.ledger
    && s.nextCall <= s'.nextCall
    && (forall c :: c in s.conns && s.conns[c].DeletingContext? ==> c in s'.conns && s'.conns[c] == s.conns[c])
    && (forall c :: c in s'.conns && WorksOff(s'.conns[c]) ==> c in s.conns && s'.conns[c] == s.conns[c])
    && (forall k :: k in s'.net ==> k < s'.nextCall)
    && (forall k :: k in s'.net && s'.net[k].BillRequest? ==> k in s.net && s'.net[k] == s.net[k])
  }

  lemma QuietKeeps(s: System, s': System, place: map<nat, Place>)
    requires LedgerInv(s, place) && Quiet(s, s')
    ensures LedgerInv(s', place)
  {
    forall c | c in s'.conns ensures ConnPlaced(s', place, c) {
      if WorksOff(s'.conns[c]) { assert ConnPlaced(s, place, c); }
    }
    forall k | k in s'.net ensures CallPlaced(s', place, k) {
      if s'.net[k].BillRequest? { assert CallPlaced(s, place, k); }
    }
    forall n | 0 <= n < |s'.ledger| ensures RowPlaced(s', place, n) {
      assert RowPlaced(s, place, n);
    }
  }

  lemma AtQuiet(s: System, c: ConnId, pc: Pc)
    requires (forall k :: k in s.net ==> k < s.nextCall) && !WorksOff(PcOf(s, c)) && !WorksOff(pc)
    ensures Quiet(s, At(s, c, pc))
  {
  }

  lemma PostQuiet(s: System, c: ConnId, r: Request, pc: Pc)
    requires (forall k :: k in s.net ==> k < s.nextCall) && !WorksOff(PcOf(s, c)) && !WorksOff(pc) && !r.BillRequest?
    ensures Quiet(s, Post(s, c, r, pc))
  {
  }

  lemma DropQuiet(s: System, s': System, k: nat)
    requires (forall j :: j in s.net ==> j < s.nextCall) && s'.net == s.net - {k} && s'.conns == s.conns && s'.nextCall == s.nextCall
    requires s'.log == s.log && s'.store == s.store && s'.origin == s.origin && s'.ledger == s.ledger
    ensures Quiet(s, s')
  {
  }

  lemma QuietHandler(s: System, e: Step)
    requires forall k :: k in s.net ==> k < s.nextCall
    requires e.ReceiveStart? || e.StartReplied? || e.StartGivenUp? || e.MeterGet? || e.PostMeter?
    ensures Quiet(s, Act(s, e))
  {
    var c := e.conn;
    var pc := PcOf(s, c);
    match e
    case ReceiveStart(_, station, connector, requested, generated, m) =>
      if pc.Idle? {
        var tx := StartTx(requested, generated);
        PostQuiet(s, c, StartRequest(tx, station, connector), AwaitSession(tx, m, s.nextCall));
      }
    case PostMeter(_) =>
      if pc.PostingMeter? { PostQuiet(s, c, MeterRequest(pc.sessionId, pc.tx, pc.kwh, pc.at), Idle); }
    case MeterGet(_, tx, kwh) =>
      if pc.Idle? && tx in s.store { AtQuiet(s, c, PostingMeter(tx, s.store[tx].sessionId, kwh, s.clock)); }
    case StartReplied(_) =>
      if pc.AwaitSession? && pc.call in s.replies {
        AtQuiet(s, c, StoringContext(pc.tx, Context(s.replies[pc.call], pc.meterStart)));
      }
    case StartGivenUp(_) =>
      if pc.AwaitSession? { AtQuiet(s, c, StoringContext(pc.tx, Context(0, pc.meterStart))); }
  }

  lemma ServeStartQuiet(s: System, k: nat, dbOk: bool)
    requires forall j :: j in s.net ==> j < s.nextCall
    ensures Quiet(s, OnServeStart(s, k, dbOk))
  {
    if k in s.net && s.net[k].StartRequest? { DropQuiet(s, OnServeStart(s, k, dbOk), k); }
  }

  lemma ServeStopQuiet(s: System, k: nat, dbOk: bool)
    requires forall j :: j in s.net ==> j < s.nextCall
    ensures Quiet(s, OnServeStop(s, k, dbOk))
  {
    if k in s.net && s.net[k].StopRequest? { DropQuiet(s, OnServeStop(s, k, dbOk), k); }
  }

  lemma ServeMeterQuiet(s: System, k: nat, dbOk: bool)
    requires forall j :: j in s.net ==> j < s.nextCall
    ensures Quiet(s, OnServeMeter(s, k, dbOk))
  {
    if k in s.net && s.net[k].MeterRequest? { DropQuiet(s, OnServeMeter(s, k, dbOk), k); }
  }

  /** Appending to the log, leaves all placed work owed and placed. */
  lemma LogGrows(s: System, s': System, e: Event, place: map<nat, Place>)
    requires Logged(s) && Placed(s, place)
    requires s'.log == s.log + [e] && s'.net == s.net && s'.ledger == s.ledger && s'.nextCall == s.nextCall
    ensures forall i :: 0 <= i < |s.log| && s'.log[i].Consumed? ==> LatestStart(s'.log, s'.log[i].origin, i, s'.log[i].tx)
    ensures forall c :: c in s'.conns && c in s.conns && s'.conns[c] == s.conns[c] ==> ConnPlaced(s', place, c)
    ensures forall k :: k in s'.net ==> CallPlaced(s', place, k)
    ensures forall n :: 0 <= n < |s'.ledger| ==> RowPlaced(s', place, n)
  {
    forall i | 0 <= i < |s.log| && s'.log[i].Consumed? ensures LatestStart(s'.log, s'.log[i].origin, i, s'.log[i].tx) {
      LatestStartExtends(s.log, e, s.log[i].origin, i, s.log[i].tx);
    }
    forall c | c in s'.conns && c in s.conns && s'.conns[c] == s.conns[c] ensures ConnPlaced(s', place, c) {
      assert ConnPlaced(s, place, c);
    }
    forall k | k in s'.net ensures CallPlaced(s', place, k) {
      assert CallPlaced(s, place, k);
    }
    forall n | 0 <= n < |s'.ledger| ensures RowPlaced(s', place, n) {
      assert RowPlaced(s, place, n);
    }
  }

  /** Only an event that is not a Start of tx keeps tx's stored context the latest. */
  lemma StoreStaysLatest(s: System, e: Event, tx: Tx)
    requires Logged(s) && tx in s.store && !IsStartOf(e, tx)
    ensures LatestStart(s.log + [e], s.origin[tx], |s.log| + 1, tx) && (s.log + [e])[s.origin[tx]].ctx == s.store[tx]
  {
    LatestStartExtends(s.log, e, s.origin[tx], |s.log|, tx);
  }

  lemma SetContextLogged(s: System, tx: Tx, ctx: Context, place: map<nat, Place>)
    requires LedgerInv(s, place)
    ensures Logged(SetContext(s, tx, ctx)) && Placed(SetContext(s, tx, ctx), place)
  {
    var s', e := SetContext(s, tx, ctx), Started(tx, ctx);
    LogGrows(s, s', e, place);
    forall x | x in s'.store ensures LatestStart(s'.log, s'.origin[x], |s'.log|, x) && s'.log[s'.origin[x]].ctx == s'.store[x] {
      if x != tx { StoreStaysLatest(s, e, x); }
    }
  }

  lemma SetContextKeeps(s: System, tx: Tx, ctx: Context, place: map<nat, Place>)
    requires LedgerInv(s, place)
    ensures LedgerInv(SetContext(s, tx, ctx), place)
  {
    SetContextLogged(s, tx, ctx, place);
    var s' := SetContext(s, tx, ctx);
    forall i | 0 <= i < |s'.log| && s'.log[i].Consumed? && s'.log[i].tx in s'.origin && s'.origin[s'.log[i].tx] == s'.log[i].origin
      ensures i < |s.log| && s.log[i].tx in s.origin && s.origin[s.log[i].tx] == s.log[i].origin
    {
      assert LatestStart(s.log, s.log[i].origin, i, s.log[i].tx);
    }
  }

  lemma StoreSetKeeps(s: System, c: ConnId, place: map<nat, Place>)
    requires LedgerInv(s, place)
    ensures LedgerInv(OnStoreSet(s, c), place)
  {
    var pc := PcOf(s, c);
    if pc.StoringContext? {
      SetContextKeeps(s, pc.tx, pc.ctx, place);
      AtQuiet(SetContext(s, pc.tx, pc.ctx), c, Idle);
      QuietKeeps(SetContext(s, pc.tx, pc.ctx), OnStoreSet(s, c), place);
    }
  }

  lemma StopReadsLogged(s: System, c: ConnId, tx: Tx, meterStop: int64)
    requires Logged(s) && PcOf(s, c).Idle? && tx in s.store
    ensures Logged(OnStopGet(s, c, tx, meterStop))
  {
    var s', e := OnStopGet(s, c, tx, meterStop), Consumed(tx, meterStop, s.origin[tx]);
    forall x | x in s'.store ensures LatestStart(s'.log, s'.origin[x], |s'.log|, x) && s'.log[s'.origin[x]].ctx == s'.store[x] {
      StoreStaysLatest(s, e, x);
    }
    forall i | 0 <= i < |s'.log| && s'.log[i].Consumed? ensures LatestStart(s'.log, s'.log[i].origin, i, s'.log[i].tx) {
      if i < |s.log| {
        LatestStartExtends(s.log, e, s.log[i].origin, i, s.log[i].tx);
      } else {
        LatestStartExtends(s.log, e, s.origin[tx], |s.log|, tx);
      }
    }
  }

  lemma StopReadsPlaced(s: System, c: ConnId, tx: Tx, meterStop: int64, place: map<nat, Place>)
    requires LedgerInv(s, place) && PcOf(s, c).Idle? && tx in s.store
    ensures Placed(OnStopGet(s, c, tx, meterStop), place[|s.log| := AtConn(c)])
  {
    var s', e := OnStopGet(s, c, tx, meterStop), Consumed(tx, meterStop, s.origin[tx]);
    var place' := place[|s.log| := AtConn(c)];
    LogGrows(s, s', e, place);
    forall d | d in s'.conns ensures ConnPlaced(s', place', d) {
      if d != c { assert ConnPlaced(s', place, d) && ConnPlaced(s, place, d); }
    }
    forall k | k in s'.net ensures CallPlaced(s', place', k) {
      assert CallPlaced(s', place, k) && CallPlaced(s, place, k);
    }
    forall n | 0 <= n < |s'.ledger| ensures RowPlaced(s', place', n) {
      assert RowPlaced(s', place, n) && RowPlaced(s, place, n);
    }
  }

  /** A Stop that finds a context logs it, and its work starts at its connection. */
  lemma StopReadsKeeps(s: System, c: ConnId, tx: Tx, meterStop: int64, place: map<nat, Place>)
    requires LedgerInv(s, place) && PcOf(s, c).Idle? && tx in s.store
    ensures LedgerInv(OnStopGet(s, c, tx, meterStop), place[|s.log| := AtConn(c)])
  {
    StopReadsLogged(s, c, tx, meterStop);
    StopReadsPlaced(s, c, tx, meterStop, place);
  }

  /** A handler that works off a Stop moves on with the same work, or is done with it. */
  lemma HandlerWorks(s: System, s': System, c: ConnId, pc: Pc, place: map<nat, Place>)
    requires Placed(s, place) && c in s.conns && WorksOff(s.conns[c])
    requires s'.log == s.log && s'.ledger == s.ledger && s'.conns == s.conns[c := pc]
    requires var from := s.conns[c];
             WorksOff(pc) ==> pc.tx == from.tx && pc.sessionId == from.sessionId && pc.energyWh == from.energyWh && pc.stop == from.stop
    requires pc.PostingBill? ==> pc.sessionId > 0
    requires forall k :: k in s'.net ==> k < s'.nextCall && (s'.net[k].BillRequest? ==> k in s.net && s'.net[k] == s.net[k])
    ensures Placed(s', place)
  {
    assert ConnPlaced(s, place, c);
    forall d | d in s'.conns ensures ConnPlaced(s', place, d) {
      if d != c { assert ConnPlaced(s, place, d); }
    }
    forall k | k in s'.net ensures CallPlaced(s', place, k) {
      if s'.net[k].BillRequest? { assert CallPlaced(s, place, k); }
    }
    forall n | 0 <= n < |s'.ledger| ensures RowPlaced(s', place, n) {
      assert RowPlaced(s, place, n);
    }
  }

  lemma DeleteStillDeleting(s: System, c: ConnId, place: map<nat, Place>)
    requires LedgerInv(s, place) && PcOf(s, c).DeletingContext?
    ensures StillDeleting(OnStopDelete(s, c), place)
  {
    assert ConnPlaced(s, place, c);
  }

  lemma DeleteLogged(s: System, tx: Tx)
    requires Logged(s)
    ensures Logged(DeleteContext(s, tx))
  {
  }

  lemma StopDeleteKeeps(s: System, c: ConnId, place: map<nat, Place>)
    requires LedgerInv(s, place)
    ensures LedgerInv(OnStopDelete(s, c), place)
  {
    var pc := PcOf(s, c);
    if pc.DeletingContext? {
      var s' := OnStopDelete(s, c);
      DeleteLogged(s, pc.tx);
      assert Logged(s');
      HandlerWorks(s, s', c, PostingStop(pc.tx, pc.sessionId, pc.energyWh, pc.stop), place);
      DeleteStillDeleting(s, c, place);
    }
  }

  lemma PostStopPlaced(s: System, c: ConnId, place: map<nat, Place>)
    requires Placed(s, place) && PcOf(s, c).PostingStop?
    ensures Placed(OnPostStop(s, c), place)
  {
    var pc := PcOf(s, c);
    HandlerWorks(s, OnPostStop(s, c), c, if pc.sessionId > 0 then PostingBill(pc.tx, pc.sessionId, pc.energyWh, pc.stop) else Idle, place);
  }

  lemma PostStopKeeps(s: System, c: ConnId, place: map<nat, Place>)
    requires LedgerInv(s, place)
    ensures LedgerInv(OnPostStop(s, c), place)
  {
    var pc := PcOf(s, c);
    if pc.PostingOrphanStop? {
      PostQuiet(s, c, StopRequest(pc.tx, 0), Idle);
      QuietKeeps(s, OnPostStop(s, c), place);
    } else if pc.PostingStop? {
      PostStopPlaced(s, c, place);
      StillDeletingKept(s, OnPostStop(s, c), place);
    }
  }

  /** Handlers between Get and Delete have not moved. */
  lemma StillDeletingKept(s: System, s': System, place: map<nat, Place>)
    requires StillDeleting(s, place) && s'.log == s.log && s'.origin == s.origin
    requires forall c :: c in s.conns && s.conns[c].DeletingContext? ==> c in s'.conns && s'.conns[c] == s.conns[c]
    ensures StillDeleting(s', place)
  {
  }

  /** Work that is not the Stop at `stop` stays placed when that one's place changes. */
  lemma PlaceMoves(s: System, place: map<nat, Place>, stop: nat, to: Place)
    requires Placed(s, place)
    ensures var place' := place[stop := to];
            && (forall c :: c in s.conns && (WorksOff(s.conns[c]) ==> s.conns[c].stop != stop) ==> ConnPlaced(s, place', c))
            && (forall k :: k in s.net && (s.net[k].BillRequest? ==> s.net[k].stop != stop) ==> CallPlaced(s, place', k))
            && (forall n :: 0 <= n < |s.ledger| && s.ledger[n].stop != stop ==> RowPlaced(s, place', n))
  {
    var place' := place[stop := to];
    forall c | c in s.conns && (WorksOff(s.conns[c]) ==> s.conns[c].stop != stop) ensures ConnPlaced(s, place', c) {
      assert ConnPlaced(s, place, c);
    }
    forall k | k in s.net && (s.net[k].BillRequest? ==> s.net[k].stop != stop) ensures CallPlaced(s, place', k) {
      assert CallPlaced(s, place, k);
    }
    forall n | 0 <= n < |s.ledger| && s.ledger[n].stop != stop ensures RowPlaced(s, place', n) {
      assert RowPlaced(s, place, n);
    }
  }

  /** A Stop's work is in one place only. */
  lemma OnePlace(s: System, place: map<nat, Place>, stop: nat)
    requires Placed(s, place) && stop in place
    ensures forall c :: c in s.conns && WorksOff(s.conns[c]) && s.conns[c].stop == stop ==> place[stop] == AtConn(c)
    ensures forall k :: k in s.net && s.net[k].BillRequest? && s.net[k].stop == stop ==> place[stop] == AtCall(k)
    ensures forall n :: 0 <= n < |s.ledger| && s.ledger[n].stop == stop ==> place[stop] == AtRow(n)
  {
    forall c | c in s.conns && WorksOff(s.conns[c]) && s.conns[c].stop == stop ensures place[stop] == AtConn(c) {
      assert ConnPlaced(s, place, c);
    }
    forall k | k in s.net && s.net[k].BillRequest? && s.net[k].stop == stop ensures place[stop] == AtCall(k) {
      assert CallPlaced(s, place, k);
    }
    forall n | 0 <= n < |s.ledger| && s.ledger[n].stop == stop ensures place[stop] == AtRow(n) {
      assert RowPlaced(s, place, n);
    }
  }

  /** A context still stored was not read by a Stop that is past its Delete. */
  lemma StillDeletingMoves(s: System, s': System, place: map<nat, Place>, stop: nat, to: Place)
    requires StillDeleting(s, place) && s'.log == s.log && s'.origin == s.origin
    requires forall c :: c in s.conns && s.conns[c].DeletingContext? ==> s.conns[c].stop != stop && c in s'.conns && s'.conns[c] == s.conns[c]
    ensures StillDeleting(s', place[stop := to])
  {
  }

  lemma PostBillPlaced(s: System, c: ConnId, place: map<nat, Place>)
    requires Placed(s, place) && PcOf(s, c).PostingBill?
    ensures Placed(OnPostBill(s, c), place[PcOf(s, c).stop := AtCall(s.nextCall)])
  {
    var pc, s' := PcOf(s, c), OnPostBill(s, c);
    var place' := place[pc.stop := AtCall(s.nextCall)];
    assert ConnPlaced(s, place, c);
    OnePlace(s, place, pc.stop);
    PlaceMoves(s, place, pc.stop, AtCall(s.nextCall));
    forall d | d in s'.conns ensures ConnPlaced(s', place', d) {
      if d != c { assert ConnPlaced(s, place', d); }
    }
    forall k | k in s'.net ensures CallPlaced(s', place', k) {
      if k != s.nextCall { assert CallPlaced(s, place', k); }
    }
    forall n | 0 <= n < |s'.ledger| ensures RowPlaced(s', place', n) {
      assert RowPlaced(s, place', n);
    }
  }

  /** Posting a bill moves the work from the connection into flight. */
  lemma PostBillKeeps(s: System, c: ConnId, place: map<nat, Place>)
    requires LedgerInv(s, place) && PcOf(s, c).PostingBill?
    ensures LedgerInv(OnPostBill(s, c), place[PcOf(s, c).stop := AtCall(s.nextCall)])
  {
    var stop := PcOf(s, c).stop;
    assert ConnPlaced(s, place, c);
    OnePlace(s, place, stop);
    PostBillPlaced(s, c, place);
    StillDeletingMoves(s, OnPostBill(s, c), place, stop, AtCall(s.nextCall));
  }

  /** Recording a bill moves the work from flight into the ledger. */
  lemma RecordBillKeeps(s: System, k: nat, bill: Bill, place: map<nat, Place>)
    requires LedgerInv(s, place) && k in s.net && s.net[k].BillRequest?
    requires Sound(bill) && bill.sessionId == s.net[k].sessionId && bill.energyWh == s.net[k].energyWh
    ensures LedgerInv(Drop(s, k).(ledger := s.ledger + [Entry(bill, s.net[k].stop, s.clock)]), place[s.net[k].stop := AtRow(|s.ledger|)])
  {
    var s' := Drop(s, k).(ledger := s.ledger + [Entry(bill, s.net[k].stop, s.clock)]);
    var place' := place[s.net[k].stop := AtRow(|s.ledger|)];
    assert CallPlaced(s, place, k);
    forall d | d in s'.conns ensures ConnPlaced(s', place', d) {
      assert ConnPlaced(s, place, d);
    }
    forall j | j in s'.net ensures CallPlaced(s', place', j) {
      assert CallPlaced(s, place, j);
    }
    forall n | 0 <= n < |s'.ledger| ensures RowPlaced(s', place', n) {
      if n < |s.ledger| { assert RowPlaced(s, place, n); }
    }
  }

  lemma ServeBillKeeps(s: System, k: nat, source: TariffSource, defaultPrice: real, dbOk: bool, place: map<nat, Place>)
      returns (place': map<nat, Place>)
    requires LedgerInv(s, place)
    ensures LedgerInv(OnServeBill(s, k, source, defaultPrice, dbOk), place')
  {
    place' := place;
    if k in s.net && s.net[k].BillRequest? {
      var r := s.net[k];
      MakeBillSound(r.sessionId, r.energyWh, source, defaultPrice);
      var bill := MakeBill(r.sessionId, r.energyWh, source, defaultPrice);
      if bill.Some? && dbOk {
        place' := place[r.stop := AtRow(|s.ledger|)];
        RecordBillKeeps(s, k, bill.value, place);
      } else {
        QuietKeeps(s, Drop(s, k), place);
      }
    }
  }

  lemma StopGetKeeps(s: System, c: ConnId, tx: Tx, meterStop: int64, place: map<nat, Place>) returns (place': map<nat, Place>)
    requires LedgerInv(s, place)
    ensures LedgerInv(OnStopGet(s, c, tx, meterStop), place')
  {
    place' := place;
    if PcOf(s, c).Idle? && tx in s.store {
      place' := place[|s.log| := AtConn(c)];
      StopReadsKeeps(s, c, tx, meterStop, place);
    } else if PcOf(s, c).Idle? {
      AtQuiet(s, c, PostingOrphanStop(tx));
      QuietKeeps(s, OnStopGet(s, c, tx, meterStop), place);
    }
  }

  /** A step of the handler that has a context to consume or a bill to post, or of billing. */
  lemma WorkKeeps(s: System, e: Step, place: map<nat, Place>) returns (place': map<nat, Place>)
    requires LedgerInv(s, place)
    requires e.StoreSet? || e.StopGet? || e.StopDelete? || e.PostStop? || e.PostBill? || e.ServeBill? || e.Restart?
    ensures LedgerInv(Act(s, e), place')
  {
    place' := place;
    match e
    case StoreSet(c) => StoreSetKeeps(s, c, place);
    case StopGet(c, tx, meterStop) => place' := StopGetKeeps(s, c, tx, meterStop, place);
    case StopDelete(c) => StopDeleteKeeps(s, c, place);
    case PostStop(c) => PostStopKeeps(s, c, place);
    case PostBill(c) =>
      if PcOf(s, c).PostingBill? {
        place' := place[PcOf(s, c).stop := AtCall(s.nextCall)];
        PostBillKeeps(s, c, place);
      }
    case ServeBill(k, source, defaultPrice, dbOk) => place' := ServeBillKeeps(s, k, source, defaultPrice, dbOk, place);
    case Restart => RestartKeeps(s, place);
  }

  /** Any other step is quiet. */
  lemma OthersQuiet(s: System, e: Step)
    requires !(e.StoreSet? || e.StopGet? || e.StopDelete? || e.PostStop? || e.PostBill? || e.ServeBill? || e.Restart?)
    requires forall k :: k in s.net ==> k < s.nextCall
    ensures Quiet(s, Act(s, e))
  {
    match e
    case ServeStart(k, dbOk) => ServeStartQuiet(s, k, dbOk);
    case ServeStop(k, dbOk) => ServeStopQuiet(s, k, dbOk);
    case ServeMeter(k, dbOk) => ServeMeterQuiet(s, k, dbOk);
    case _ => QuietHandler(s, e);
  }

  lemma TickQuiet(s: System)
    requires forall k :: k in s.net ==> k < s.nextCall
    ensures Quiet(s, Tick(s))
  {
  }

  lemma StepKeeps(s: System, e: Step, place: map<nat, Place>) returns (place': map<nat, Place>)
    requires LedgerInv(s, place)
    ensures LedgerInv(Next(s, e), place')
  {
    if e.StoreSet? || e.StopGet? || e.StopDelete? || e.PostStop? || e.PostBill? || e.ServeBill? || e.Restart? {
      place' := WorkKeeps(s, e, place);
    } else {
      place' := place;
      OthersQuiet(s, e);
      QuietKeeps(s, Act(s, e), place);
    }
    TickQuiet(Act(s, e));
    QuietKeeps(Act(s, e), Next(s, e), place');
  }

  lemma RestartKeeps(s: System, place: map<nat, Place>)
    requires LedgerInv(s, place)
    ensures LedgerInv(OnRestart(s), place)
  {
    var s' := OnRestart(s);
    forall k | k in s'.net ensures CallPlaced(s', place, k) {
      assert CallPlaced(s, place, k);
    }
    forall n | 0 <= n < |s'.ledger| ensures RowPlaced(s', place, n) {
      assert RowPlaced(s, place, n);
    }
  }

  lemma {:induction false} RunKeeps(es: seq<Step>) returns (place: map<nat, Place>)
    ensures LedgerInv(Exec(es), place)
  {
    if es == [] {
      place := map[];
    } else {
      var before := RunKeeps(es[..|es| - 1]);
      place := StepKeeps(Exec(es[..|es| - 1]), es[|es| - 1], before);
    }
  }

  // ----- Theorem: a context is consumed twice exactly when two Stops overlap -----

  /** Two logged Stops read the context of the same Start. */
  ghost predicate ConsumedTwice(log: seq<Event>) {
    exists i, j :: 0 <= i < j < |log| && log[i].Consumed? && log[j].Consumed? && log[i].origin == log[j].origin
  }

  /** The label is a Stop about to read a context that another connection has read and not yet deleted. */
  ghost predicate Overlaps(s: System, e: Step) {
    && e.StopGet? && PcOf(s, e.conn).Idle? && e.tx in s.origin
    && exists d :: d in s.conns && DeletesSame(s, s.conns[d], e.tx)
  }

  ghost predicate DeletesSame(s: System, pc: Pc, tx: Tx)
    requires tx in s.origin
  {
    pc.DeletingContext? && pc.tx == tx && pc.stop < |s.log| && s.log[pc.stop].Consumed? && s.log[pc.stop].origin == s.origin[tx]
  }

  /** The label is a Stop that will find a context. */
  ghost predicate Reads(s: System, e: Step) {
    e.StopGet? && PcOf(s, e.conn).Idle? && e.tx in s.store && e.tx in s.origin
  }

  lemma LogKept(s: System, e: Step)
    requires !e.StoreSet? && !e.StopGet?
    ensures Next(s, e).log == s.log
  {
    if OfService(e) {
      ServiceKeepsServer(s, e);
    }
  }

  lemma LogOnlyGrows(s: System, e: Step)
    ensures s.log <= Next(s, e).log && |Next(s, e).log| <= |s.log| + 1
    ensures (|s.log| < |Next(s, e).log| && Next(s, e).log[|s.log|].Consumed?) <==> Reads(s, e)
    ensures Reads(s, e) ==> Next(s, e).log[|s.log|].origin == s.origin[e.tx]
  {
    match e
    case StoreSet(c) =>
    case StopGet(c, tx, m) =>
    case _ => LogKept(s, e);
  }

  /** Reading a context that some Stop has read already is an overlap. */
  lemma ReadAgainOverlaps(s: System, e: Step, i: nat, place: map<nat, Place>)
    requires LedgerInv(s, place) && Reads(s, e)
    requires i < |s.log| && s.log[i].Consumed? && s.log[i].origin == s.origin[e.tx]
    ensures Overlaps(s, e)
  {
    assert LatestStart(s.log, s.log[i].origin, i, s.log[i].tx) && LatestStart(s.log, s.origin[e.tx], |s.log|, e.tx);
    assert ConnPlaced(s, place, place[i].conn);
    assert DeletesSame(s, s.conns[place[i].conn], e.tx);
  }

  /** A log that grows by one consumes a context twice when it did before or the new Stop reads one already read. */
  lemma TwiceGrows(log: seq<Event>, log': seq<Event>)
    requires log <= log' && |log'| <= |log| + 1
    ensures ConsumedTwice(log') <==>
            || ConsumedTwice(log)
            || (|log| < |log'| && log'[|log|].Consumed? && exists i :: 0 <= i < |log| && log[i].Consumed? && log[i].origin == log'[|log|].origin)
  {
    if ConsumedTwice(log') {
      var i, j :| 0 <= i < j < |log'| && log'[i].Consumed? && log'[j].Consumed? && log'[i].origin == log'[j].origin;
      assert log[i] == log'[i];
      assert j < |log| ==> log[j] == log'[j];
    }
    if ConsumedTwice(log) {
      var i, j :| 0 <= i < j < |log| && log[i].Consumed? && log[j].Consumed? && log[i].origin == log[j].origin;
      assert log'[i] == log[i] && log'[j] == log[j];
    }
    if i :| 0 <= i < |log| && |log| < |log'| && log[i].Consumed? && log'[|log|].Consumed? && log[i].origin == log'[|log|].origin {
      assert log'[i] == log[i];
    }
  }

  /** A step that makes the log consume a context twice overlaps, and a step that overlaps does so. */
  lemma TwiceNowIff(s: System, e: Step, log': seq<Event>, place: map<nat, Place>)
    requires LedgerInv(s, place)
    requires s.log <= log' && |log'| <= |s.log| + 1
    requires (|s.log| < |log'| && log'[|s.log|].Consumed?) <==> Reads(s, e)
    requires Reads(s, e) ==> log'[|s.log|].origin == s.origin[e.tx]
    ensures ConsumedTwice(log') <==> ConsumedTwice(s.log) || Overlaps(s, e)
  {
    TwiceGrows(s.log, log');
    if Reads(s, e) {
      if i :| 0 <= i < |s.log| && s.log[i].Consumed? && s.log[i].origin == s.origin[e.tx] {
        ReadAgainOverlaps(s, e, i, place);
      }
    }
    if Overlaps(s, e) {
      var d :| d in s.conns && DeletesSame(s, s.conns[d], e.tx);
      assert s.log[s.conns[d].stop].origin == s.origin[e.tx];
    }
  }

  lemma StepTwiceIff(es: seq<Step>, e: Step)
    ensures ConsumedTwice(Exec(es + [e]).log) <==> ConsumedTwice(Exec(es).log) || Overlaps(Exec(es), e)
  {
    var s := Exec(es);
    var s' := Extend(es, s, e);
    var place := RunKeeps(es);
    LogOnlyGrows(s, e);
    TwiceNowIff(s, e, s'.log, place);
  }

  /** Some label of the run overlaps. */
  ghost predicate OverlapIn(es: seq<Step>) {
    exists k :: 0 <= k < |es| && Overlaps(Before(es, k), es[k])
  }

  lemma OverlapExtends(es: seq<Step>, e: Step)
    ensures OverlapIn(es + [e]) <==> OverlapIn(es) || Overlaps(Exec(es), e)
  {
    var fs := es + [e];
    assert fs[..|es|] == es;
    forall k | 0 <= k < |es| ensures Before(fs, k) == Before(es, k) {
      assert fs[..k] == es[..k];
    }
    if OverlapIn(es) {
      var k :| 0 <= k < |es| && Overlaps(Before(es, k), es[k]);
      assert Overlaps(Before(fs, k), fs[k]);
    }
    if Overlaps(Exec(es), e) {
      assert Overlaps(Before(fs, |es|), fs[|es|]);
    }
  }

  /**
   * For every run: some Start's context is consumed by two Stops if and only if at some point a Stop reads a context that
   * another connection is between reading and deleting.
   */
  lemma {:induction false} ConsumedTwiceIff(es: seq<Step>)
    ensures ConsumedTwice(Exec(es).log) <==> OverlapIn(es)
  {
    if es != [] {
      var p, e := es[..|es| - 1], es[|es| - 1];
      assert es == p + [e];
      ConsumedTwiceIff(p);
      OverlapExtends(p, e);
      StepTwiceIff(p, e);
    }
  }

  // ----- Theorem: billing rows never outnumber Starts -----

  ghost function StartsOf(log: seq<Event>, tx: Tx): set<nat> {
    set k: nat | k < |log| && IsStartOf(log[k], tx)
  }

  ghost function RowsOf(ledger: seq<Entry>, sessionId: int): set<nat> {
    set n: nat | n < |ledger| && ledger[n].bill.sessionId == sessionId
  }

  lemma {:induction false} InjectionBound(a: set<nat>, b: set<nat>, f: map<nat, nat>)
    requires forall x :: x in a ==> x in f && f[x] in b
    requires forall x, y :: x in a && y in a && f[x] == f[y] ==> x == y
    ensures |a| <= |b|
  {
    if a != {} {
      var x :| x in a;
      InjectionBound(a - {x}, b - {f[x]}, f);
    }
  }

  /**
   * A ledger row belongs to a logged Stop and bills, under the session id of the latest Start of that transaction before
   * that Stop, the energy from that Start's meterStart.
   */
  ghost predicate PaidFromLatestStart(log: seq<Event>, row: Entry) {
    && row.stop < |log| && log[row.stop].Consumed?
    && LatestStart(log, log[row.stop].origin, row.stop, log[row.stop].tx)
    && row.bill.sessionId == PaidFrom(log, row.stop).sessionId > 0
    && row.bill.energyWh == EnergyWh(log[row.stop].meterStop, PaidFrom(log, row.stop).meterStart)
    && Sound(row.bill)
  }

  ghost predicate LedgerPaid(s: System) {
    && (forall n :: 0 <= n < |s.ledger| ==> PaidFromLatestStart(s.log, s.ledger[n]))
    && (forall m, n :: 0 <= m < n < |s.ledger| ==> s.ledger[m].stop != s.ledger[n].stop)
  }

  lemma PlacedRowsPaid(s: System, place: map<nat, Place>)
    requires LedgerInv(s, place)
    ensures LedgerPaid(s)
  {
    forall n | 0 <= n < |s.ledger| ensures RowPlaced(s, place, n) && PaidFromLatestStart(s.log, s.ledger[n]) {
    }
  }

  /** For every run, whatever overlaps: every ledger row is paid from the latest Start, and no two rows from the same Stop. */
  lemma RowsPaidFromLatestStart(es: seq<Step>)
    ensures LedgerPaid(Exec(es))
  {
    var place := RunKeeps(es);
    PlacedRowsPaid(Exec(es), place);
  }

  /** Every Start's session id is its transaction's row id. */
  ghost predicate StartsNamed(s: System) {
    forall k :: 0 <= k < |s.log| && s.log[k].Started? ==> Names(s.table, s.log[k].tx, s.log[k].ctx.sessionId)
  }

  /** A Start enters the log when its handler stores its context. */
  lemma NewStart(s: System, e: Step)
    requires |s.log| < |Next(s, e).log| && Next(s, e).log[|s.log|].Started?
    ensures e.StoreSet? && PcOf(s, e.conn).StoringContext?
    ensures Next(s, e).log[|s.log|] == Started(PcOf(s, e.conn).tx, PcOf(s, e.conn).ctx)
  {
    match e
    case StoreSet(c) =>
    case StopGet(c, tx, m) =>
    case _ => LogKept(s, e);
  }

  lemma NewStartNamed(s: System, e: Step)
    requires ChargingIdentity.Identified(s)
    requires |s.log| < |Next(s, e).log| && Next(s, e).log[|s.log|].Started?
    ensures var added := Next(s, e).log[|s.log|]; Names(s.table, added.tx, added.ctx.sessionId)
  {
    NewStart(s, e);
    assert ChargingIdentity.PcNamed(s, s.conns[e.conn]);
  }

  lemma LogNamed(s: System, s': System)
    requires StartsNamed(s) && KeepsIds(s.table, s'.table) && s.log <= s'.log && |s'.log| <= |s.log| + 1
    requires |s.log| < |s'.log| && s'.log[|s.log|].Started? ==> Names(s.table, s'.log[|s.log|].tx, s'.log[|s.log|].ctx.sessionId)
    ensures StartsNamed(s')
  {
    forall k | 0 <= k < |s'.log| && s'.log[k].Started? ensures Names(s.table, s'.log[k].tx, s'.log[k].ctx.sessionId) {
      if k < |s.log| {
        assert s'.log[k] == s.log[k];
      }
    }
  }

  lemma StepStartsNamed(s: System, e: Step, s': System)
    requires ChargingIdentity.Identified(s) && StartsNamed(s) && s' == Next(s, e)
    ensures StartsNamed(s')
  {
    ChargingIdentity.StepIdentified(s, e);
    LogOnlyGrows(s, e);
    if |s.log| < |s'.log| && s'.log[|s.log|].Started? {
      NewStartNamed(s, e);
    }
    LogNamed(s, s');
  }

  lemma {:induction false} RunStartsNamed(es: seq<Step>)
    ensures StartsNamed(Exec(es))
  {
    if es != [] {
      RunStartsNamed(es[..|es| - 1]);
      ChargingIdentity.RunIdentified(es[..|es| - 1]);
      StepStartsNamed(Exec(es[..|es| - 1]), es[|es| - 1], Exec(es));
    }
  }

  lemma BoundedRows(s: System, tx: Tx)
    requires LedgerPaid(s) && StartsNamed(s) && Wf(s.table) && !ConsumedTwice(s.log) && tx in s.table.rows
    ensures |RowsOf(s.ledger, s.table.rows[tx].id)| <= |StartsOf(s.log, tx)|
  {
    var rows := RowsOf(s.ledger, s.table.rows[tx].id);
    forall n | n in rows ensures PaidFromLatestStart(s.log, s.ledger[n]) && s.log[s.ledger[n].stop].origin in StartsOf(s.log, tx) {
      var start := s.log[s.log[s.ledger[n].stop].origin];
      assert Names(s.table, start.tx, start.ctx.sessionId);
    }
    var f := map n | n in rows :: s.log[s.ledger[n].stop].origin;
    InjectionBound(rows, StartsOf(s.log, tx), f);
  }

  /** If no two Stops overlap on a context, a session's billing rows never outnumber the Starts handled for its transaction. */
  lemma BillsBoundedByStarts(es: seq<Step>, tx: Tx)
    requires !OverlapIn(es) && tx in Exec(es).table.rows
    ensures var s := Exec(es); |RowsOf(s.ledger, s.table.rows[tx].id)| <= |StartsOf(s.log, tx)|
  {
    ConsumedTwiceIff(es);
    RowsPaidFromLatestStart(es);
    RunStartsNamed(es);
    ChargingIdentity.RunIdentified(es);
    BoundedRows(Exec(es), tx);
  }

  // ----- One connection per transaction -----

  /** Every Stop of a transaction arrives over the connection that owns the transaction. */
  ghost predicate OneConnectionEach(es: seq<Step>, owner: map<Tx, ConnId>) {
    forall k :: 0 <= k < |es| ==> ByOwner(es[k], owner)
  }

  ghost predicate ByOwner(e: Step, owner: map<Tx, ConnId>) {
    e.StopGet? ==> e.tx in owner && owner[e.tx] == e.conn
  }

  ghost predicate DeletersOwn(s: System, owner: map<Tx, ConnId>) {
    forall c :: c in s.conns && s.conns[c].DeletingContext? ==> s.conns[c].tx in owner && owner[s.conns[c].tx] == c
  }

  lemma DeleterFrom(s: System, e: Step, c: ConnId)
    ensures var pc' := PcOf(Next(s, e), c);
            pc'.DeletingContext? ==> pc' == PcOf(s, c) || (e.StopGet? && e.conn == c && e.tx == pc'.tx)
  {
    if OfService(e) {
      ServiceKeepsServer(s, e);
    } else if !e.Restart? && e.conn != c {
      OthersStay(s, e, c);
    }
  }

  lemma StepDeletersOwn(s: System, e: Step, s': System, owner: map<Tx, ConnId>)
    requires DeletersOwn(s, owner) && ByOwner(e, owner) && s' == Next(s, e)
    ensures DeletersOwn(s', owner)
  {
    forall c | c in s'.conns && s'.conns[c].DeletingContext? ensures s'.conns[c].tx in owner && owner[s'.conns[c].tx] == c {
      DeleterFrom(s, e, c);
      assert PcOf(s', c) == s'.conns[c];
    }
  }

  /** If every transaction's Stops come over one connection, no two Stops overlap. */
  lemma {:induction false} OneConnectionNeverOverlaps(es: seq<Step>, owner: map<Tx, ConnId>)
    requires OneConnectionEach(es, owner)
    ensures !OverlapIn(es) && DeletersOwn(Exec(es), owner)
  {
    if es != [] {
      var p, e := es[..|es| - 1], es[|es| - 1];
      assert es == p + [e];
      forall k | 0 <= k < |p| ensures ByOwner(p[k], owner) {
        assert p[k] == es[k];
      }
      OneConnectionNeverOverlaps(p, owner);
      OverlapExtends(p, e);
      StepDeletersOwn(Exec(p), e, Exec(es), owner);
    }
  }

  /** In every interleaving with lost calls and restarts, one connection per transaction bounds its billing rows by its Starts. */
  lemma OneConnectionBoundsBills(es: seq<Step>, owner: map<Tx, ConnId>, tx: Tx)
    requires OneConnectionEach(es, owner) && tx in Exec(es).table.rows
    ensures var s := Exec(es); |RowsOf(s.ledger, s.table.rows[tx].id)| <= |StartsOf(s.log, tx)|
  {
    OneConnectionNeverOverlaps(es, owner);
    BillsBoundedByStarts(es, tx);
  }
}
