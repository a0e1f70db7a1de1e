/**
 * The charging-transaction protocol as a step machine.
 *
 * Any number of connections run the StartTransaction, MeterValues and StopTransaction handlers against one shared
 * transaction store and post requests to the sessions, billing and telemetry services. A step is one store
 * operation, one request posted, one request served, or a loss. A request that is never served is a lost request;
 * a caller that gives up before or after its request is served is a lost reply; Restart loses the store and every
 * running handler while posted requests stay in flight. A label that is not enabled leaves the system unchanged, so
 * every sequence of labels is a run.
 *
 * `origin`, `log` and `clock` are history: the log records every context stored and every context read by a Stop,
 * origin[tx] is the log position of the Start whose context is stored for tx, and the clock counts the labels so far,
 * so that a reading can carry the position in the run (`at`) of the MeterGet it came from, and a ledger row that of the
 * label that served it.
 */
module Charging {
  import opened Billing
  import opened Meter
  import opened SessionTable

  type Tx = string
  type ConnId = nat

  datatype Context = Context(sessionId: int, meterStart: int64)

  datatype Event =
    | Started(tx: Tx, ctx: Context)
    | Consumed(tx: Tx, meterStop: int64, origin: nat)

  datatype Request =
    | StartRequest(tx: Tx, station: string, connector: int)
    | StopRequest(tx: Tx, energyWh: int)
    | BillRequest(sessionId: int, energyWh: int, stop: nat)
    | MeterRequest(sessionId: int, tx: Tx, kwh: real, at: nat)

  /** Where a connection's handler stands; `stop` is the log position of the Consumed event it is working off. */
  datatype Pc =
    | Idle
    | AwaitSession(tx: Tx, meterStart: int64, call: nat)
    | StoringContext(tx: Tx, ctx: Context)
    | DeletingContext(tx: Tx, sessionId: int, energyWh: int, stop: nat)
    | PostingStop(tx: Tx, sessionId: int, energyWh: int, stop: nat)
    | PostingOrphanStop(tx: Tx)
    | PostingBill(tx: Tx, sessionId: int, energyWh: int, stop: nat)
    | PostingMeter(tx: Tx, sessionId: int, kwh: real, at: nat)

  /** A ledger row with the log position of the Stop that caused it and the run position of the label that served it. */
  datatype Entry = Entry(bill: Bill, stop: nat, at: nat)

  /** A telemetry row with the transaction it was read under and the position in the run of its arrival. */
  datatype Reading = Reading(sessionId: int, tx: Tx, kwh: real, at: nat)

  datatype System = System(
    store: map<Tx, Context>,
    origin: map<Tx, nat>,
    table: Table,
    conns: map<ConnId, Pc>,
    net: map<nat, Request>,
    replies: map<nat, int>,
    nextCall: nat,
    ledger: seq<Entry>,
    readings: seq<Reading>,
    log: seq<Event>,
    clock: nat)

  datatype Step =
    | ReceiveStart(conn: ConnId, station: string, connector: int, requested: Tx, generated: Tx, meterStart: int64)
    | ServeStart(call: nat, dbOk: bool)
    | StartReplied(conn: ConnId)
    | StartGivenUp(conn: ConnId)
    | StoreSet(conn: ConnId)
    | StopGet(conn: ConnId, tx: Tx, meterStop: int64)
    | StopDelete(conn: ConnId)
    | PostStop(conn: ConnId)
    | ServeStop(call: nat, dbOk: bool)
    | PostBill(conn: ConnId)
    | ServeBill(call: nat, source: TariffSource, defaultPrice: real, dbOk: bool)
    | MeterGet(conn: ConnId, tx: Tx, kwh: real)
    | PostMeter(conn: ConnId)
    | ServeMeter(call: nat, dbOk: bool)
    | Restart

  function Init(): System {
    System(map[], map[], Empty(), map[], map[], map[], 0, [], [], [], 0)
  }

  function PcOf(s: System, c: ConnId): Pc {
    if c in s.conns then s.conns[c] else Idle
  }

  // ----- One shared operation each -----

  /** The handler on connection c moves on. */
  function At(s: System, c: ConnId, pc: Pc): System {
    s.(conns := s.conns[c := pc])
  }

  /** Posting puts the request in flight under a fresh call number and moves the handler on. */
  function Post(s: System, c: ConnId, r: Request, pc: Pc): System {
    s.(conns := s.conns[c := pc], net := s.net[s.nextCall := r], nextCall := s.nextCall + 1)
  }

  /** Call k is answered, with or without effect. */
  function Drop(s: System, k: nat): System {
    s.(net := s.net - {k})
  }

  /** The sessions service upserts the row of tx and replies to call k with its id. */
  function UpsertRow(s: System, k: nat, tx: Tx, station: string, connector: int): System {
    var table := Upsert(s.table, tx, station, connector);
    s.(table := table, replies := s.replies[k := table.rows[tx].id])
  }

  /** txStore.Set. */
  function SetContext(s: System, tx: Tx, ctx: Context): System {
    s.(store := s.store[tx := ctx], origin := s.origin[tx := |s.log|], log := s.log + [Started(tx, ctx)])
  }

  /** txStore.Delete. */
  function DeleteContext(s: System, tx: Tx): System {
    s.(store := s.store - {tx}, origin := s.origin - {tx})
  }

  // ----- The steps -----

  /** The id a Start works under: the station's, or a generated one when the station sent none. */
  function StartTx(requested: Tx, generated: Tx): Tx {
    if requested == "" then generated else requested
  }

  function OnServeStart(s: System, k: nat, dbOk: bool): System {
    if !(k in s.net && s.net[k].StartRequest?) then s
    else
      var r := s.net[k];
      if dbOk && r.tx != "" then UpsertRow(Drop(s, k), k, r.tx, r.station, r.connector) else Drop(s, k)
  }

  function OnStartReplied(s: System, c: ConnId): System {
    var pc := PcOf(s, c);
    if pc.AwaitSession? && pc.call in s.replies
    then At(s, c, StoringContext(pc.tx, Context(s.replies[pc.call], pc.meterStart)))
    else s
  }

  function OnStartGivenUp(s: System, c: ConnId): System {
    var pc := PcOf(s, c);
    if pc.AwaitSession? then At(s, c, StoringContext(pc.tx, Context(0, pc.meterStart))) else s
  }

  function OnStoreSet(s: System, c: ConnId): System {
    var pc := PcOf(s, c);
    if pc.StoringContext? then At(SetContext(s, pc.tx, pc.ctx), c, Idle) else s
  }

  /** Stop reads the context, if there is one, under the read lock only. */
  function OnStopGet(s: System, c: ConnId, tx: Tx, meterStop: int64): System {
    if !PcOf(s, c).Idle? then s
    else if tx in s.store && tx in s.origin then
      var ctx := s.store[tx];
      At(s.(log := s.log + [Consumed(tx, meterStop, s.origin[tx])]), c,
         DeletingContext(tx, ctx.sessionId, EnergyWh(meterStop, ctx.meterStart), |s.log|))
    else At(s, c, PostingOrphanStop(tx))
  }

  function OnStopDelete(s: System, c: ConnId): System {
    var pc := PcOf(s, c);
    if pc.DeletingContext?
    then At(DeleteContext(s, pc.tx), c, PostingStop(pc.tx, pc.sessionId, pc.energyWh, pc.stop))
    else s
  }

  /** The sessions service is told of every Stop, with energy 0 when there was no context. */
  function OnPostStop(s: System, c: ConnId): System {
    var pc := PcOf(s, c);
    if pc.PostingOrphanStop? then Post(s, c, StopRequest(pc.tx, 0), Idle)
    else if pc.PostingStop? then
      Post(s, c, StopRequest(pc.tx, pc.energyWh),
           if pc.sessionId > 0 then PostingBill(pc.tx, pc.sessionId, pc.energyWh, pc.stop) else Idle)
    else s
  }

  function OnServeStop(s: System, k: nat, dbOk: bool): System {
    if !(k in s.net && s.net[k].StopRequest?) then s
    else
      var r := s.net[k];
      if dbOk && r.tx != "" then Drop(s, k).(table := Complete(s.table, r.tx, r.energyWh)) else Drop(s, k)
  }

  function OnPostBill(s: System, c: ConnId): System {
    var pc := PcOf(s, c);
    if pc.PostingBill? then Post(s, c, BillRequest(pc.sessionId, pc.energyWh, pc.stop), Idle) else s
  }

  function OnServeBill(s: System, k: nat, source: TariffSource, defaultPrice: real, dbOk: bool): System {
    if !(k in s.net && s.net[k].BillRequest?) then s
    else
      var r := s.net[k];
      var bill := MakeBill(r.sessionId, r.energyWh, source, defaultPrice);
      if bill.Some? && dbOk then Drop(s, k).(ledger := s.ledger + [Entry(bill.value, r.stop, s.clock)]) else Drop(s, k)
  }

  function OnMeterGet(s: System, c: ConnId, tx: Tx, kwh: real): System {
    if PcOf(s, c).Idle? && tx in s.store && s.store[tx].sessionId != 0
    then At(s, c, PostingMeter(tx, s.store[tx].sessionId, kwh, s.clock))
    else s
  }

  function OnPostMeter(s: System, c: ConnId): System {
    var pc := PcOf(s, c);
    if pc.PostingMeter? then Post(s, c, MeterRequest(pc.sessionId, pc.tx, pc.kwh, pc.at), Idle) else s
  }

  function OnServeMeter(s: System, k: nat, dbOk: bool): System {
    if !(k in s.net && s.net[k].MeterRequest?) then s
    else
      var r := s.net[k];
      if dbOk then Drop(s, k).(readings := s.readings + [Reading(r.sessionId, r.tx, r.kwh, r.at)]) else Drop(s, k)
  }

  function OnReceiveStart(s: System, c: ConnId, station: string, connector: int, tx: Tx, meterStart: int64): System {
    if PcOf(s, c).Idle?
    then Post(s, c, StartRequest(tx, station, connector), AwaitSession(tx, meterStart, s.nextCall))
    else s
  }

  function OnRestart(s: System): System {
    s.(store := map[], origin := map[], conns := map[])
  }

  /** What the label does. */
  function Act(s: System, e: Step): System {
    match e
    case ReceiveStart(c, station, connector, requested, generated, m) =>
      OnReceiveStart(s, c, station, connector, StartTx(requested, generated), m)
    case ServeStart(k, dbOk) => OnServeStart(s, k, dbOk)
    case StartReplied(c) => OnStartReplied(s, c)
    case StartGivenUp(c) => OnStartGivenUp(s, c)
    case StoreSet(c) => OnStoreSet(s, c)
    case StopGet(c, tx, meterStop) => OnStopGet(s, c, tx, meterStop)
    case StopDelete(c) => OnStopDelete(s, c)
    case PostStop(c) => OnPostStop(s, c)
    case ServeStop(k, dbOk) => OnServeStop(s, k, dbOk)
    case PostBill(c) => OnPostBill(s, c)
    case ServeBill(k, source, price, dbOk) => OnServeBill(s, k, source, price, dbOk)
    case MeterGet(c, tx, kwh) => OnMeterGet(s, c, tx, kwh)
    case PostMeter(c) => OnPostMeter(s, c)
    case ServeMeter(k, dbOk) => OnServeMeter(s, k, dbOk)
    case Restart => OnRestart(s)
  }

  /** One more label has passed. */
  function Tick(s: System): System {
    s.(clock := s.clock + 1)
  }

  function Next(s: System, e: Step): System { Tick(Act(s, e)) }

  /** A step of one of the services, as opposed to a handler. */
  predicate OfService(e: Step) { e.ServeStart? || e.ServeStop? || e.ServeBill? || e.ServeMeter? }

  /** Two systems with the same handlers, the same transaction store and the same history of it. */
  ghost predicate SameServer(s: System, s': System) {
    s'.conns == s.conns && s'.store == s.store && s'.origin == s.origin && s'.log == s.log
  }

  lemma ServiceKeepsServer(s: System, e: Step)
    requires OfService(e)
    ensures SameServer(s, Next(s, e))
  {
    match e
    case ServeStart(k, dbOk) => ServeStartKeepsServer(s, k, dbOk);
    case ServeStop(k, dbOk) => ServeStopKeepsServer(s, k, dbOk);
    case ServeBill(k, source, price, dbOk) => ServeBillKeepsServer(s, k, source, price, dbOk);
    case ServeMeter(k, dbOk) => ServeMeterKeepsServer(s, k, dbOk);
  }

  lemma ServeStartKeepsServer(s: System, k: nat, dbOk: bool)
    ensures SameServer(s, OnServeStart(s, k, dbOk))
  {
  }

  lemma ServeStopKeepsServer(s: System, k: nat, dbOk: bool)
    ensures SameServer(s, OnServeStop(s, k, dbOk))
  {
  }

  lemma ServeBillKeepsServer(s: System, k: nat, source: TariffSource, defaultPrice: real, dbOk: bool)
    ensures SameServer(s, OnServeBill(s, k, source, defaultPrice, dbOk))
  {
  }

  lemma ServeMeterKeepsServer(s: System, k: nat, dbOk: bool)
    ensures SameServer(s, OnServeMeter(s, k, dbOk))
  {
  }

  /** A handler moves on by its own steps only. */
  lemma OthersStay(s: System, e: Step, c: ConnId)
    requires !OfService(e) && !e.Restart? && e.conn != c
    ensures PcOf(Next(s, e), c) == PcOf(s, c)
  {
    if OfStop(e) {
      OthersStayOnStop(s, e, c);
    } else {
      OthersStayOnStart(s, e, c);
    }
  }

  predicate OfStop(e: Step) { e.StopGet? || e.StopDelete? || e.PostStop? || e.PostBill? }

  lemma OthersStayOnStop(s: System, e: Step, c: ConnId)
    requires OfStop(e) && e.conn != c
    ensures PcOf(Act(s, e), c) == PcOf(s, c)
  {
  }

  lemma OthersStayOnStart(s: System, e: Step, c: ConnId)
    requires !OfStop(e) && !OfService(e) && !e.Restart? && e.conn != c
    ensures PcOf(Act(s, e), c) == PcOf(s, c)
  {
  }

  /** The state after a run, from the empty system. */
  function Exec(es: seq<Step>): System {
    if es == [] then Init() else Next(Exec(es[..|es| - 1]), es[|es| - 1])
  }

  /** The state just before label k of a run. */
  function Before(es: seq<Step>, k: nat): System
    requires k <= |es|
  {
    Exec(es[..k])
  }

  /** One more label is one more step. */
  lemma Extend(es: seq<Step>, s: System, e: Step) returns (s': System)
    requires Exec(es) == s
    ensures s' == Next(s, e) && Exec(es + [e]) == s'
  {
    assert (es + [e])[..|es|] == es;
    s' := Next(s, e);
  }
}
