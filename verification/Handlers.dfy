/**
 * The StartTransaction, MeterValues and StopTransaction handlers as they run on one connection, over the transaction
 * store and the three services. Outcomes of the best-effort calls are parameters. Each method states the resulting
 * server state, and shows that what it did is a run of the step machine in Charging.
 */
module Handlers {
  import opened Billing
  import opened Charging
  import opened Meter
  import opened Options
  import opened SessionTable
  import ChargingIdentity
  import Correlation
  import SessionCache
  import StationState

  /** What the handlers leave behind in the store and in the three services. */
  datatype Server = Server(store: map<Tx, Context>, table: Table, ledger: seq<Bill>, readings: seq<(int, real)>)

  /** Fate of the session-start call: did the service act on it, and did its reply come back in time? */
  datatype StartFate = StartFate(done: bool, replied: bool)

  /** Fate of the session-stopped call to billing: the tariff it found, and whether the row was inserted. */
  datatype BillFate = BillFate(source: TariffSource, defaultPrice: real, done: bool)

  // ----- What each handler does -----

  function StartSessionId(v: Server, tx: Tx, fate: StartFate): (id: int) {
    if tx == "" || !fate.done || !fate.replied then 0
    else if tx in v.table.rows then v.table.rows[tx].id else v.table.nextId
  }

  function AfterStart(v: Server, station: string, connector: int, tx: Tx, meterStart: int64, fate: StartFate): (r: Server) {
    v.(table := if tx != "" && fate.done then Upsert(v.table, tx, station, connector) else v.table,
       store := v.store[tx := Context(StartSessionId(v, tx, fate), meterStart)])
  }

  function AfterMeter(v: Server, tx: Tx, kwh: real, done: bool): (r: Server) {
    if tx in v.store && v.store[tx].sessionId != 0 && done
    then v.(readings := v.readings + [(v.store[tx].sessionId, kwh)])
    else v
  }

  function AfterStop(v: Server, tx: Tx, meterStop: int64, stopDone: bool, fate: BillFate): (r: Server) {
    var energyWh := if tx in v.store then EnergyWh(meterStop, v.store[tx].meterStart) else 0;
    var bill := if tx in v.store && v.store[tx].sessionId > 0
                then MakeBill(v.store[tx].sessionId, energyWh, fate.source, fate.defaultPrice)
                else None;
    v.(store := v.store - {tx},
       table := if tx != "" && stopDone then Complete(v.table, tx, energyWh) else v.table,
       ledger := if bill.Some? && fate.done then v.ledger + [bill.value] else v.ledger)
  }

  // ----- The step machine, seen as a server -----

  function Bills(entries: seq<Entry>): (r: seq<Bill>) { seq(|entries|, i requires 0 <= i < |entries| => entries[i].bill) }

  function Rows(readings: seq<Reading>): (r: seq<(int, real)>) {
    seq(|readings|, i requires 0 <= i < |readings| => (readings[i].sessionId, readings[i].kwh))
  }

  function Seen(s: System): (r: Server) { Server(s.store, s.table, Bills(s.ledger), Rows(s.readings)) }

  lemma BillsSnoc(entries: seq<Entry>, e: Entry)
    ensures Bills(entries + [e]) == Bills(entries) + [e.bill]
  {
  }

  lemma RowsSnoc(readings: seq<Reading>, r: Reading)
    ensures Rows(readings + [r]) == Rows(readings) + [(r.sessionId, r.kwh)]
  {
  }

  /** The machine's run of a StartTransaction, up to the store write. */
  lemma StartCallRun(es: seq<Step>, c: ConnId, station: string, connector: int, tx: Tx, meterStart: int64, fate: StartFate)
      returns (es': seq<Step>)
    requires PcOf(Exec(es), c).Idle? && tx != ""
    ensures es <= es'
    ensures var v := Seen(Exec(es));
            && Seen(Exec(es')) == v.(table := if fate.done then Upsert(v.table, tx, station, connector) else v.table)
            && PcOf(Exec(es'), c) == StoringContext(tx, Context(StartSessionId(v, tx, fate), meterStart))
            && Exec(es').origin == Exec(es).origin
  {
    var s := Exec(es);
    ChargingIdentity.RunIdentified(es);
    var k, e1 := s.nextCall, ReceiveStart(c, station, connector, tx, tx, meterStart);
    var s1 := Extend(es, s, e1);
    var es1 := es + [e1];
    assert PcOf(s1, c) == AwaitSession(tx, meterStart, k) && k !in s1.replies && s1.net[k] == StartRequest(tx, station, connector);
    es' := AwaitRun(es1, c, station, connector, fate);
  }

  /** A handler waiting for its session: served or not, replied to or not. */
  lemma AwaitRun(es: seq<Step>, c: ConnId, station: string, connector: int, fate: StartFate) returns (es': seq<Step>)
    requires var s, pc := Exec(es), PcOf(Exec(es), c);
             && pc.AwaitSession? && pc.tx != "" && pc.call in s.net && pc.call !in s.replies
             && s.net[pc.call] == StartRequest(pc.tx, station, connector)
    ensures es <= es'
    ensures var v, pc := Seen(Exec(es)), PcOf(Exec(es), c);
            && Seen(Exec(es')) == v.(table := if fate.done then Upsert(v.table, pc.tx, station, connector) else v.table)
            && PcOf(Exec(es'), c) == StoringContext(pc.tx, Context(StartSessionId(v, pc.tx, fate), pc.meterStart))
            && Exec(es').origin == Exec(es).origin
  {
    var s := Exec(es);
    var k := PcOf(s, c).call;
    if fate.done {
      var s1 := Extend(es, s, ServeStart(k, true));
      var es1 := es + [ServeStart(k, true)];
      assert PcOf(s1, c) == PcOf(s, c) && k in s1.replies;
      var e := if fate.replied then StartReplied(c) else StartGivenUp(c);
      var s2 := Extend(es1, s1, e);
      es' := es1 + [e];
    } else {
      var s1 := Extend(es, s, StartGivenUp(c));
      es' := es + [StartGivenUp(c)];
    }
  }

  lemma StartRun(es: seq<Step>, c: ConnId, station: string, connector: int, tx: Tx, meterStart: int64, fate: StartFate)
      returns (es': seq<Step>)
    requires PcOf(Exec(es), c).Idle? && tx != ""
    ensures es <= es' && PcOf(Exec(es'), c).Idle?
    ensures Seen(Exec(es')) == AfterStart(Seen(Exec(es)), station, connector, tx, meterStart, fate)
  {
    var es1 := StartCallRun(es, c, station, connector, tx, meterStart, fate);
    var s := Extend(es1, Exec(es1), StoreSet(c));
    es' := es1 + [StoreSet(c)];
  }

  /** A handler that holds a reading posts it. */
  lemma MeterPosted(s: System, c: ConnId)
    requires PcOf(s, c).PostingMeter?
    ensures var pc, s' := PcOf(s, c), Next(s, PostMeter(c));
            && Seen(s') == Seen(s) && PcOf(s', c).Idle?
            && s.nextCall in s'.net && s'.net[s.nextCall] == MeterRequest(pc.sessionId, pc.tx, pc.kwh, pc.at)
  {
  }

  /** Telemetry files a reading in flight. */
  lemma MeterFiled(s: System, k: nat)
    requires k in s.net && s.net[k].MeterRequest?
    ensures var v, s' := Seen(s), Next(s, ServeMeter(k, true));
            Seen(s') == v.(readings := v.readings + [(s.net[k].sessionId, s.net[k].kwh)]) && s'.conns == s.conns
  {
    var r := s.net[k];
    RowsSnoc(s.readings, Reading(r.sessionId, r.tx, r.kwh, r.at));
  }

  lemma MeterPostRun(es: seq<Step>, c: ConnId, done: bool) returns (es': seq<Step>)
    requires PcOf(Exec(es), c).PostingMeter?
    ensures es <= es' && PcOf(Exec(es'), c).Idle?
    ensures var v, pc := Seen(Exec(es)), PcOf(Exec(es), c);
            Seen(Exec(es')) == if done then v.(readings := v.readings + [(pc.sessionId, pc.kwh)]) else v
  {
    var s := Exec(es);
    MeterPosted(s, c);
    var s1 := Extend(es, s, PostMeter(c));
    es' := es + [PostMeter(c)];
    if done {
      MeterFiled(s1, s.nextCall);
      var s2 := Extend(es', s1, ServeMeter(s.nextCall, true));
      es' := es' + [ServeMeter(s.nextCall, true)];
    }
  }

  lemma MeterRun(es: seq<Step>, c: ConnId, tx: Tx, kwh: real, done: bool) returns (es': seq<Step>)
    requires PcOf(Exec(es), c).Idle?
    ensures es <= es' && PcOf(Exec(es'), c).Idle?
    ensures Seen(Exec(es')) == AfterMeter(Seen(Exec(es)), tx, kwh, done)
  {
    var s := Exec(es);
    es' := es;
    if tx in s.store && s.store[tx].sessionId != 0 {
      var s1 := Extend(es, s, MeterGet(c, tx, kwh));
      es' := MeterPostRun(es + [MeterGet(c, tx, kwh)], c, done);
    }
  }

  /** Get, and Delete when there was something to get. */
  lemma StopRead(s: System, c: ConnId, tx: Tx, meterStop: int64)
    requires PcOf(s, c).Idle? && s.store.Keys == s.origin.Keys
    ensures var v, s1 := Seen(s), Next(s, StopGet(c, tx, meterStop));
            if tx in s.store then
              var s2 := Next(s1, StopDelete(c));
              && Seen(s2) == v.(store := v.store - {tx})
              && PcOf(s2, c) == PostingStop(tx, s.store[tx].sessionId, EnergyWh(meterStop, s.store[tx].meterStart), |s.log|)
            else Seen(s1) == v == v.(store := v.store - {tx}) && PcOf(s1, c) == PostingOrphanStop(tx)
  {
    assert tx !in s.store ==> s.store - {tx} == s.store;
  }

  lemma StopReadRun(es: seq<Step>, c: ConnId, tx: Tx, meterStop: int64) returns (es': seq<Step>)
    requires PcOf(Exec(es), c).Idle?
    ensures es <= es'
    ensures var v := Seen(Exec(es)); Seen(Exec(es')) == v.(store := v.store - {tx})
    ensures var s, pc := Exec(es), PcOf(Exec(es'), c);
            if tx in s.store
            then pc == PostingStop(tx, s.store[tx].sessionId, EnergyWh(meterStop, s.store[tx].meterStart), |s.log|)
            else pc == PostingOrphanStop(tx)
  {
    var s := Exec(es);
    ChargingIdentity.RunIdentified(es);
    StopRead(s, c, tx, meterStop);
    var s1 := Extend(es, s, StopGet(c, tx, meterStop));
    es' := es + [StopGet(c, tx, meterStop)];
    if tx in s.store {
      var s2 := Extend(es', s1, StopDelete(c));
      es' := es' + [StopDelete(c)];
    }
  }

  /** The sessions service is told, and perhaps acts. */
  lemma StopPostRun(es: seq<Step>, c: ConnId, stopDone: bool) returns (es': seq<Step>)
    requires PcOf(Exec(es), c).PostingStop? || PcOf(Exec(es), c).PostingOrphanStop?
    ensures es <= es'
    ensures var v, pc := Seen(Exec(es)), PcOf(Exec(es), c);
            var energyWh := if pc.PostingStop? then pc.energyWh else 0;
            && Seen(Exec(es')) == v.(table := if pc.tx != "" && stopDone then Complete(v.table, pc.tx, energyWh) else v.table)
            && PcOf(Exec(es'), c) == if pc.PostingStop? && pc.sessionId > 0
                                     then PostingBill(pc.tx, pc.sessionId, pc.energyWh, pc.stop) else Idle
  {
    var s := Exec(es);
    var pc, k := PcOf(s, c), s.nextCall;
    var energyWh := if pc.PostingStop? then pc.energyWh else 0;
    var s1 := Extend(es, s, PostStop(c));
    es' := es + [PostStop(c)];
    assert k in s1.net && s1.net[k] == StopRequest(pc.tx, energyWh) && Seen(s1) == Seen(s);
    if stopDone {
      es' := StopServed(es', k);
    }
  }

  /** The sessions service acts on a stop request in flight. */
  lemma StopServed(es: seq<Step>, k: nat) returns (es': seq<Step>)
    requires k in Exec(es).net && Exec(es).net[k].StopRequest?
    ensures es <= es' && Exec(es').conns == Exec(es).conns
    ensures var v, r := Seen(Exec(es)), Exec(es).net[k];
            Seen(Exec(es')) == if r.tx != "" then v.(table := Complete(v.table, r.tx, r.energyWh)) else v
  {
    var s := Extend(es, Exec(es), ServeStop(k, true));
    es' := es + [ServeStop(k, true)];
  }

  /** Billing is told. */
  lemma BillPosted(s: System, c: ConnId)
    requires PcOf(s, c).PostingBill?
    ensures var pc, s' := PcOf(s, c), Next(s, PostBill(c));
            && Seen(s') == Seen(s) && PcOf(s', c).Idle?
            && s.nextCall in s'.net && s'.net[s.nextCall] == BillRequest(pc.sessionId, pc.energyWh, pc.stop)
  {
  }

  /** Billing serves a bill in flight: it records a row or refuses. */
  lemma BillServed(s: System, k: nat, fate: BillFate)
    requires k in s.net && s.net[k].BillRequest?
    ensures var v, s' := Seen(s), Next(s, ServeBill(k, fate.source, fate.defaultPrice, fate.done));
            var bill := MakeBill(s.net[k].sessionId, s.net[k].energyWh, fate.source, fate.defaultPrice);
            && Seen(s') == v.(ledger := if bill.Some? && fate.done then v.ledger + [bill.value] else v.ledger)
            && s'.conns == s.conns
  {
    var bill := MakeBill(s.net[k].sessionId, s.net[k].energyWh, fate.source, fate.defaultPrice);
    if bill.Some? {
      BillsSnoc(s.ledger, Entry(bill.value, s.net[k].stop, s.clock));
    }
  }

  lemma BillRun(es: seq<Step>, c: ConnId, fate: BillFate) returns (es': seq<Step>)
    requires PcOf(Exec(es), c).PostingBill?
    ensures es <= es' && PcOf(Exec(es'), c).Idle?
    ensures var v, pc := Seen(Exec(es)), PcOf(Exec(es), c);
            var bill := MakeBill(pc.sessionId, pc.energyWh, fate.source, fate.defaultPrice);
            Seen(Exec(es')) == v.(ledger := if bill.Some? && fate.done then v.ledger + [bill.value] else v.ledger)
  {
    var s := Exec(es);
    BillPosted(s, c);
    var s1 := Extend(es, s, PostBill(c));
    var es1 := es + [PostBill(c)];
    BillServed(s1, s.nextCall, fate);
    var e := ServeBill(s.nextCall, fate.source, fate.defaultPrice, fate.done);
    var s2 := Extend(es1, s1, e);
    es' := es1 + [e];
  }

  lemma StopRun(es: seq<Step>, c: ConnId, tx: Tx, meterStop: int64, stopDone: bool, fate: BillFate) returns (es': seq<Step>)
    requires PcOf(Exec(es), c).Idle?
    ensures es <= es' && PcOf(Exec(es'), c).Idle?
    ensures Seen(Exec(es')) == AfterStop(Seen(Exec(es)), tx, meterStop, stopDone, fate)
  {
    var es1 := StopReadRun(es, c, tx, meterStop);
    var es2 := StopPostRun(es1, c, stopDone);
    es' := es2;
    if PcOf(Exec(es2), c).PostingBill? {
      es' := BillRun(es2, c, fate);
    }
  }

  // ----- The objects -----

  /** backend/services/ocpp-server/internal/service/transaction_store.go; each method holds the lock throughout. */
  class TransactionStore {
    var data: map<Tx, Context>

    constructor ()
      ensures data == map[]
    {
      data := map[];
    }

    method Set(tx: Tx, ctx: Context)
      modifies this
      ensures data == old(data)[tx := ctx]
    {
      data := data[tx := ctx];
    }

    method Get(tx: Tx) returns (ctx: Option<Context>)
      ensures ctx == if tx in data then Some(data[tx]) else None
    {
      ctx := if tx in data then Some(data[tx]) else None;
    }

    method Delete(tx: Tx)
      modifies this
      ensures data == old(data) - {tx}
    {
      data := data - {tx};
    }
  }

  /** The billing service's ledger and its CalculateAndCreateTransaction. */
  class BillingService {
    var ledger: seq<Bill>

    constructor ()
      ensures ledger == []
    {
      ledger := [];
    }

    method CreateTransaction(sessionId: int, energyWh: int, fate: BillFate) returns (ok: bool)
      modifies this
      ensures ok <==> sessionId != 0 && Usable(fate.source, fate.defaultPrice) && fate.done
      ensures !ok ==> ledger == old(ledger)
      ensures ok ==>
                && |ledger| == |old(ledger)| + 1 && ledger[..|old(ledger)|] == old(ledger)
                && var b := ledger[|old(ledger)|];
                   b.sessionId == sessionId && b.energyWh == energyWh && Charges(b, fate.source, fate.defaultPrice)
      ensures ok ==> ledger == old(ledger) + [MakeBill(sessionId, energyWh, fate.source, fate.defaultPrice).value]
    {
      MakeBillSound(sessionId, energyWh, fate.source, fate.defaultPrice);
      if sessionId == 0 {
        return false;
      }
      var tariff := ActivePrice(fate.source, fate.defaultPrice);
      if tariff.None? {
        return false;
      }
      var price := tariff.value;
      if price <= 0.0 {
        price := 1.0;
      }
      var amount := energyWh as real / 1000.0 * price;
      if !fate.done {
        return false;
      }
      ledger := ledger + [Bill(sessionId, energyWh, price, amount)];
      ok := true;
    }
  }

  // ----- Requests and answers -----

  /** What ocpp.Decode makes of a payload. */
  datatype Decoded<T> = Decoded(value: T) | Malformed(description: string)

  datatype StartBody = StartBody(connector: int, transactionId: Tx, meterStart: int64)
  datatype MeterBody = MeterBody(transactionId: Tx, kwh: real)
  datatype StopBody = StopBody(transactionId: Tx, meterStop: int64)

  /** StartTransactionResponse. */
  function StartConfirmation(tx: Tx): Correlation.Json {
    Correlation.Obj([("transactionId", Correlation.Str(tx)), ("idTagInfo", Correlation.Obj([("status", Correlation.Str("Accepted"))]))])
  }

  /** What each handler returns, leaves behind and reports, whether or not the payload decodes. */
  function StartOutcome(request: Decoded<StartBody>, generated: Tx): (r: Correlation.Outcome) {
    match request
    case Malformed(d) => Correlation.HandlerError(d)
    case Decoded(body) => Correlation.Payload(StartConfirmation(StartTx(body.transactionId, generated)))
  }

  function StartView(v: Server, station: string, request: Decoded<StartBody>, generated: Tx, fate: StartFate): (r: Server) {
    match request
    case Malformed(_) => v
    case Decoded(body) => AfterStart(v, station, body.connector, StartTx(body.transactionId, generated), body.meterStart, fate)
  }

  function MeterOutcome(request: Decoded<MeterBody>): (r: Correlation.Outcome) {
    match request
    case Malformed(d) => Correlation.HandlerError(d)
    case Decoded(_) => Correlation.Nil
  }

  function MeterView(v: Server, request: Decoded<MeterBody>, done: bool): (r: Server) {
    match request
    case Malformed(_) => v
    case Decoded(body) => AfterMeter(v, body.transactionId, body.kwh, done)
  }

  function StopOutcome(request: Decoded<StopBody>): (r: Correlation.Outcome) {
    match request
    case Malformed(d) => Correlation.HandlerError(d)
    case Decoded(_) => Correlation.Payload(Correlation.Obj([]))
  }

  function StopView(v: Server, request: Decoded<StopBody>, stopDone: bool, fate: BillFate): (r: Server) {
    match request
    case Malformed(_) => v
    case Decoded(body) => AfterStop(v, body.transactionId, body.meterStop, stopDone, fate)
  }

  /** The ocpp-server's three transaction handlers for one connection, with nothing else running. */
  class TransactionHandlers {
    const conn: ConnId
    const store: TransactionStore
    const sessions: SessionCache.SessionsService
    const billing: BillingService
    const state: StationState.State
    var readings: seq<(int, real)>
    ghost var run: seq<Step>

    ghost function View(): Server
      reads this, store, sessions, billing
    {
      Server(store.data, sessions.table, billing.ledger, readings)
    }

    /** The objects hold what the step machine holds after `run`, and this connection's handler is idle. */
    ghost predicate Valid()
      reads this, store, sessions, billing
    {
      Follows(run, View())
    }

    /** After the run es the machine looks like v, and this connection's handler is idle. */
    ghost predicate Follows(es: seq<Step>, v: Server) {
      Seen(Exec(es)) == v && PcOf(Exec(es), conn).Idle?
    }

    constructor (c: ConnId)
      ensures Valid() && run == [] && fresh(store) && fresh(sessions) && fresh(billing)
      ensures state.Valid() && state.log == [] && state.stations == map[] && fresh(state)
    {
      conn := c;
      var st := new TransactionStore();
      var se := new SessionCache.SessionsService();
      var bi := new BillingService();
      var sta := new StationState.State();
      store, sessions, billing, state := st, se, bi, sta;
      readings := [];
      run := [];
    }

    /** The best-effort call to the sessions service; 0 when no id came back. */
    method NotifyStart(station: string, connector: int, tx: Tx, fate: StartFate, cacheOk: bool) returns (sessionId: int)
      requires Wf(sessions.table) && tx != ""
      modifies sessions
      ensures sessionId == StartSessionId(old(View()), tx, fate)
      ensures sessions.table == if fate.done then Upsert(old(sessions.table), tx, station, connector) else old(sessions.table)
    {
      sessionId := 0;
      if fate.done {
        var id := sessions.StartSession(tx, station, connector, SessionCache.Succeeds, cacheOk);
        if fate.replied {
          sessionId := id;
        }
      }
    }

    /** Reporting a status changes nothing but the station state. */
    method Report(reports: seq<StationState.Event>)
      requires state.Valid()
      modifies state, state.Records(), state.Maps()
      ensures state.Valid() && state.log == old(state.log) + reports && View() == old(View()) && run == old(run)
      ensures fresh(state.Records() - old(state.Records())) && fresh(state.Maps() - old(state.Maps()))
    {
      state.UpdateAll(reports);
    }

    /** The last effect of a Start: its context is stored, under the session id the call gave. */
    method StoreContext(ghost before: Server, station: string, connector: int, tx: Tx, sessionId: int, meterStart: int64, ghost fate: StartFate)
      requires Follows(run, before) && tx != "" && sessionId == StartSessionId(before, tx, fate)
      requires View() == before.(table := if fate.done then Upsert(before.table, tx, station, connector) else before.table)
      requires state.Valid()
      modifies this`run, store
      ensures Valid() && old(run) <= run && View() == AfterStart(before, station, connector, tx, meterStart, fate)
      ensures state.Valid() && state.log == old(state.log) && state.stations == old(state.stations)
    {
      store.Set(tx, Context(sessionId, meterStart));
      StartStored(before, station, connector, tx, meterStart, fate);
    }

    /** The machine takes the steps of the Start that has just been stored. */
    ghost method StartStored(before: Server, station: string, connector: int, tx: Tx, meterStart: int64, fate: StartFate)
      requires Follows(run, before) && tx != "" && View() == AfterStart(before, station, connector, tx, meterStart, fate)
      modifies this`run
      ensures Valid() && old(run) <= run
    {
      run := StartRun(run, conn, station, connector, tx, meterStart, fate);
    }

    /** The effects of a Start before its context is stored: the session call and the connector report. */
    method Announce(station: string, connector: int, tx: Tx, fate: StartFate, cacheOk: bool) returns (sessionId: int)
      requires Wf(sessions.table) && state.Valid() && tx != ""
      modifies sessions, state, state.Records(), state.Maps()
      ensures sessionId == StartSessionId(old(View()), tx, fate)
      ensures View() == old(View()).(table := if fate.done then Upsert(old(sessions.table), tx, station, connector) else old(sessions.table))
      ensures state.Valid() && state.log == old(state.log) + if connector > 0 then [StationState.ConnectorIs(station, connector, "Charging")] else []
      ensures fresh(state.Records() - old(state.Records())) && fresh(state.Maps() - old(state.Maps()))
    {
      sessionId := NotifyStart(station, connector, tx, fate, cacheOk);
      if connector > 0 {
        Report([StationState.ConnectorIs(station, connector, "Charging")]);
      }
    }

    /** start_transaction.go once the transaction id is known. */
    method Begin(station: string, body: StartBody, tx: Tx, fate: StartFate, cacheOk: bool)
      requires Valid() && state.Valid() && tx != ""
      modifies this`run, store, sessions, state, state.Records(), state.Maps()
      ensures Valid() && old(run) <= run
      ensures state.Valid() && fresh(state.Records() - old(state.Records())) && fresh(state.Maps() - old(state.Maps()))
      ensures View() == AfterStart(old(View()), station, body.connector, tx, body.meterStart, fate)
      ensures state.log == old(state.log) + if body.connector > 0 then [StationState.ConnectorIs(station, body.connector, "Charging")] else []
    {
      TableIsWf();
      ghost var before := View();
      var sessionId := Announce(station, body.connector, tx, fate, cacheOk);
      StoreContext(before, station, body.connector, tx, sessionId, body.meterStart, fate);
    }

    /** start_transaction.go; `generated` is the id made from station and clock when the station sent none. */
    method StartTransaction(station: string, request: Decoded<StartBody>, generated: Tx, fate: StartFate, cacheOk: bool)
        returns (outcome: Correlation.Outcome)
      requires Valid() && state.Valid() && generated != ""
      modifies this`run, store, sessions, state, state.Records(), state.Maps()
      ensures Valid() && old(run) <= run
      ensures state.Valid() && fresh(state.Records() - old(state.Records())) && fresh(state.Maps() - old(state.Maps()))
      ensures outcome == StartOutcome(request, generated)
      ensures View() == StartView(old(View()), station, request, generated, fate)
      ensures state.log == old(state.log) + if request.Decoded? && request.value.connector > 0
                                            then [StationState.ConnectorIs(station, request.value.connector, "Charging")] else []
    {
      if request.Malformed? {
        return Correlation.HandlerError(request.description);
      }
      var transactionId := request.value.transactionId;
      if transactionId == "" {
        transactionId := generated;
      }
      Begin(station, request.value, transactionId, fate, cacheOk);
      outcome := Correlation.Payload(StartConfirmation(transactionId));
    }

    /** meter_values.go: the handler never returns a payload. */
    method MeterValues(request: Decoded<MeterBody>, done: bool) returns (outcome: Correlation.Outcome)
      requires Valid()
      modifies this
      ensures Valid() && old(run) <= run
      ensures outcome == MeterOutcome(request) && View() == MeterView(old(View()), request, done)
    {
      if request.Malformed? {
        return Correlation.HandlerError(request.description);
      }
      var body := request.value;
      run := MeterRun(run, conn, body.transactionId, body.kwh, done);
      var ctx := store.Get(body.transactionId);
      if ctx.Some? && ctx.value.sessionId != 0 {
        if done {
          readings := readings + [(ctx.value.sessionId, body.kwh)];
        }
      }
      outcome := Correlation.Nil;
    }

    /** The first part of stop_transaction.go: read the context, compute the energy, delete the context. */
    method ConsumeContext(tx: Tx, meterStop: int64) returns (sessionId: int, energyWh: int64)
      modifies store
      ensures store.data == old(store.data) - {tx}
      ensures sessionId == if tx in old(store.data) then old(store.data)[tx].sessionId else 0
      ensures energyWh == if tx in old(store.data) then EnergyWh(meterStop, old(store.data)[tx].meterStart) else 0
    {
      energyWh, sessionId := 0, 0;
      var ctx := store.Get(tx);
      if ctx.Some? {
        sessionId := ctx.value.sessionId;
        if meterStop > ctx.value.meterStart {
          energyWh := Wrap64(meterStop - ctx.value.meterStart);
        }
        store.Delete(tx);
      }
      assert ctx.None? ==> store.data - {tx} == store.data;
    }

    /** stop_transaction.go. */
    method StopTransaction(station: string, request: Decoded<StopBody>, stopDone: bool, fate: BillFate, cacheOk: bool)
        returns (outcome: Correlation.Outcome)
      requires Valid() && state.Valid()
      modifies this`run, store, sessions, billing, state, state.Records(), state.Maps()
      ensures Valid() && old(run) <= run
      ensures state.Valid() && fresh(state.Records() - old(state.Records())) && fresh(state.Maps() - old(state.Maps()))
      ensures outcome == StopOutcome(request)
      ensures View() == StopView(old(View()), request, stopDone, fate)
      ensures state.log == old(state.log) + if request.Decoded? then [StationState.StationIs(station, "Available")] else []
    {
      if request.Malformed? {
        return Correlation.HandlerError(request.description);
      }
      Settle(request.value, stopDone, fate, cacheOk);
      Report([StationState.StationIs(station, "Available")]);
      outcome := Correlation.Payload(Correlation.Obj([]));
    }

    /** stop_transaction.go between decoding and the station state. */
    method Settle(body: StopBody, stopDone: bool, fate: BillFate, cacheOk: bool)
      requires Valid()
      modifies this`run, store, sessions, billing
      ensures Valid() && old(run) <= run
      ensures View() == AfterStop(old(View()), body.transactionId, body.meterStop, stopDone, fate)
    {
      ghost var before := View();
      TableIsWf();
      var sessionId, energyWh := ConsumeContext(body.transactionId, body.meterStop);
      if stopDone && body.transactionId != "" {
        var ok := sessions.StopSession(body.transactionId, energyWh, SessionCache.Succeeds, cacheOk);
      }
      if sessionId > 0 {
        var ok := billing.CreateTransaction(sessionId, energyWh, fate);
      }
      StopSettled(before, body, stopDone, fate);
    }

    /** The machine takes the steps of the Stop that has just been settled. */
    ghost method StopSettled(before: Server, body: StopBody, stopDone: bool, fate: BillFate)
      requires Follows(run, before) && View() == AfterStop(before, body.transactionId, body.meterStop, stopDone, fate)
      modifies this`run
      ensures Valid() && old(run) <= run
    {
      run := StopRun(run, conn, body.transactionId, body.meterStop, stopDone, fate);
    }

    lemma TableIsWf()
      requires Valid()
      ensures Wf(sessions.table)
    {
      ChargingIdentity.RunIdentified(run);
      assert Seen(Exec(run)).table == sessions.table;
    }
  }

  // ----- Process with these handlers in their place; `request` is what decoding makes of the payload -----

  /** A StartTransaction CALL: confirmed with the id under which its context is now stored, or refused. */
  method AnswerStart(p: Correlation.Processor, h: TransactionHandlers, station: string, id: string, payload: Correlation.Json,
                     request: Decoded<StartBody>, generated: Tx, fate: StartFate, cacheOk: bool)
      returns (response: Option<Correlation.Json>)
    requires h.Valid() && h.state.Valid() && generated != "" && "StartTransaction" in p.router.handlers
    modifies h`run, h.store, h.sessions, h.state, h.state.Records(), h.state.Maps()
    ensures h.Valid() && h.state.Valid()
    ensures h.View() == StartView(old(h.View()), station, request, generated, fate)
    ensures response == Correlation.Respond(old(p.router.handlers), Correlation.Call(id, "StartTransaction", payload), StartOutcome(request, generated))
    ensures response == match request
                        case Malformed(d) => Some(Correlation.CallError(id, d))
                        case Decoded(body) =>
                          var tx := if body.transactionId != "" then body.transactionId else generated;
                          var accepted := Correlation.Obj([("status", Correlation.Str("Accepted"))]);
                          Some(Correlation.CallResult(id, Correlation.Obj([("transactionId", Correlation.Str(tx)), ("idTagInfo", accepted)])))
    ensures request.Decoded? ==>
              var tx := if request.value.transactionId != "" then request.value.transactionId else generated;
              tx in h.View().store && h.View().store[tx].meterStart == request.value.meterStart
  {
    Correlation.ParseCall(id, "StartTransaction", payload, Correlation.NotJson);
    var msg := Correlation.Parse(Correlation.Call(id, "StartTransaction", payload)).value;
    assert msg.action in p.router.handlers;
    var outcome := h.StartTransaction(station, request, generated, fate, cacheOk);
    response := Correlation.Reply(msg.uniqueId, outcome);
  }

  /** A MeterValues CALL never gets a CALLRESULT, and gets an error exactly when its payload does not decode. */
  method AnswerMeterValues(p: Correlation.Processor, h: TransactionHandlers, id: string, payload: Correlation.Json,
                           request: Decoded<MeterBody>, done: bool)
      returns (response: Option<Correlation.Json>)
    requires h.Valid() && "MeterValues" in p.router.handlers
    modifies h
    ensures h.Valid()
    ensures h.View() == MeterView(old(h.View()), request, done)
    ensures response == Correlation.Respond(old(p.router.handlers), Correlation.Call(id, "MeterValues", payload), MeterOutcome(request))
    ensures response == match request
                        case Malformed(d) => Some(Correlation.CallError(id, d))
                        case Decoded(_) => None
  {
    Correlation.ParseCall(id, "MeterValues", payload, Correlation.NotJson);
    var msg := Correlation.Parse(Correlation.Call(id, "MeterValues", payload)).value;
    assert msg.action in p.router.handlers;
    var outcome := h.MeterValues(request, done);
    response := Correlation.Reply(msg.uniqueId, outcome);
  }

  /** A StopTransaction CALL is confirmed whatever became of its calls, even when there was nothing to stop. */
  method AnswerStop(p: Correlation.Processor, h: TransactionHandlers, station: string, id: string, payload: Correlation.Json,
                    request: Decoded<StopBody>, stopDone: bool, fate: BillFate, cacheOk: bool)
      returns (response: Option<Correlation.Json>)
    requires h.Valid() && h.state.Valid() && "StopTransaction" in p.router.handlers
    modifies h`run, h.store, h.sessions, h.billing, h.state, h.state.Records(), h.state.Maps()
    ensures h.Valid() && h.state.Valid()
    ensures h.View() == StopView(old(h.View()), request, stopDone, fate)
    ensures response == Correlation.Respond(old(p.router.handlers), Correlation.Call(id, "StopTransaction", payload), StopOutcome(request))
    ensures response == match request
                        case Malformed(d) => Some(Correlation.CallError(id, d))
                        case Decoded(_) => Some(Correlation.CallResult(id, Correlation.Obj([])))
  {
    Correlation.ParseCall(id, "StopTransaction", payload, Correlation.NotJson);
    var msg := Correlation.Parse(Correlation.Call(id, "StopTransaction", payload)).value;
    assert msg.action in p.router.handlers;
    var outcome := h.StopTransaction(station, request, stopDone, fate, cacheOk);
    response := Correlation.Reply(msg.uniqueId, outcome);
  }

  /** After a Start on a connector and a Stop the handlers leave the station Available and the connector Charging. */
  method StartThenStop(h: TransactionHandlers, station: string, start: StartBody, generated: Tx, startFate: StartFate,
                       stop: StopBody, stopDone: bool, billFate: BillFate, cacheOk: bool)
    requires h.Valid() && h.state.Valid() && generated != "" && start.connector > 0
    modifies h`run, h.store, h.sessions, h.billing, h.state, h.state.Records(), h.state.Maps()
    ensures h.Valid() && h.state.Valid()
    ensures var known := StationState.ValuesOf(h.state.stations);
            && station in known && known[station].status == "Available"
            && start.connector in known[station].connectors && known[station].connectors[start.connector] == "Charging"
  {
    ghost var log := h.state.log;
    var started := h.StartTransaction(station, Decoded(start), generated, startFate, cacheOk);
    var stopped := h.StopTransaction(station, Decoded(stop), stopDone, billFate, cacheOk);
    StationState.ChargingAfterStop(h.state, log, station, start.connector);
  }
}
