/**
 * The station simulator's connectors and coroutines (station_simulator.py). A coroutine runs without interruption up to
 * its next await, so a step is one such stretch. Frames go on the wire in the order in which they are sent. Energy grows
 * in whole Wh and stays within int64. Every transaction id drawn is fresh.
 */
module Simulator {
  import opened Meter
  import opened Options

  type Tx = string

  datatype Frame =
    | Start(connector: int, tx: Tx, meterStart: int64)
    | Reading(connector: int, tx: Tx, wh: int64)
    | Stop(connector: int, tx: Tx, meterStop: int64)

  datatype Connector = Connector(active: bool, tx: Option<Tx>, energyWh: int64, energyTask: Option<nat>)

  /** A suspended coroutine of connector k; EnergyTest is the energy task about to test its loop condition. */
  datatype Coroutine =
    | SendingStart(k: nat)
    | EnergyTest(k: nat)
    | EnergySleeping(k: nat)
    | EnergySending(k: nat)

  datatype Station = Station(connectors: seq<Connector>, coroutines: map<nat, Coroutine>, next: nat, used: set<Tx>, wire: seq<Frame>)

  datatype Step =
    | PressStart(k: nat, txId: Tx)
    | StartSent(id: nat)
    | PressStop(k: nat)
    | Test(id: nat)
    | Wake(id: nat, wh: nat)
    | ReadingSent(id: nat)

  function Init(n: nat): Station {
    Station(seq(n, _ => Connector(false, None, 0, None)), map[], 0, {}, [])
  }

  function Spawn(s: Station, c: Coroutine): Station {
    s.(coroutines := s.coroutines[s.next := c], next := s.next + 1)
  }

  /** _start_session up to the await of its frame. */
  function OnPressStart(s: Station, k: nat, tx: Tx): Station {
    if k >= |s.connectors| || s.connectors[k].active || tx == "" || tx in s.used then s
    else
      var c := s.connectors[k].(active := true, tx := Some(tx), energyWh := 0);
      Spawn(s.(connectors := s.connectors[k := c], used := s.used + {tx}, wire := s.wire + [Start(k + 1, tx, 0)]), SendingStart(k))
  }

  /** The rest of _start_session: create the energy task, whatever has happened meanwhile. */
  function OnStartSent(s: Station, id: nat): Station {
    if id !in s.coroutines || !s.coroutines[id].SendingStart? || s.coroutines[id].k >= |s.connectors| then s
    else
      var k := s.coroutines[id].k;
      Spawn(s.(connectors := s.connectors[k := s.connectors[k].(energyTask := Some(s.next))],
               coroutines := s.coroutines - {id}), EnergyTest(k))
  }

  /** _stop_session; nothing but a log line follows its await. */
  function OnPressStop(s: Station, k: nat): Station {
    if k >= |s.connectors| || !s.connectors[k].active || s.connectors[k].tx.None? then s
    else
      var c := s.connectors[k];
      var cancelled := if c.energyTask.Some? then {c.energyTask.value} else {};
      s.(connectors := s.connectors[k := Connector(false, None, c.energyWh, None)],
         coroutines := s.coroutines - cancelled,
         wire := s.wire + [Stop(k + 1, c.tx.value, c.energyWh)])
  }

  /** The energy task tests `while connector.active_session`. */
  function OnTest(s: Station, id: nat): Station {
    if id !in s.coroutines || !s.coroutines[id].EnergyTest? || s.coroutines[id].k >= |s.connectors| then s
    else if s.connectors[s.coroutines[id].k].active
    then s.(coroutines := s.coroutines[id := EnergySleeping(s.coroutines[id].k)])
    else s.(coroutines := s.coroutines - {id})
  }

  /** Connector k's energy grows, and a reading is sent when there is a transaction. */
  function Grow(s: Station, k: nat, wh: nat): Station
    requires k < |s.connectors| && s.connectors[k].energyWh + wh <= MAX_INT64
  {
    var c := s.connectors[k];
    s.(connectors := s.connectors[k := c.(energyWh := c.energyWh + wh)],
       wire := if c.tx.Some? then s.wire + [Reading(k + 1, c.tx.value, c.energyWh + wh)] else s.wire)
  }

  /** The energy task's sleep is over. */
  function OnWake(s: Station, id: nat, wh: nat): Station {
    if id !in s.coroutines || !s.coroutines[id].EnergySleeping? || s.coroutines[id].k >= |s.connectors| then s
    else
      var k := s.coroutines[id].k;
      if s.connectors[k].energyWh + wh > MAX_INT64 then s
      else
        Grow(s, k, wh).(coroutines := s.coroutines[id := if s.connectors[k].tx.Some? then EnergySending(k) else EnergyTest(k)])
  }

  function OnReadingSent(s: Station, id: nat): Station {
    if id !in s.coroutines || !s.coroutines[id].EnergySending? then s
    else s.(coroutines := s.coroutines[id := EnergyTest(s.coroutines[id].k)])
  }

  /** A label that is not enabled leaves the station unchanged. */
  function Next(s: Station, e: Step): Station {
    match e
    case PressStart(k, txId) => OnPressStart(s, k, txId)
    case StartSent(id) => OnStartSent(s, id)
    case PressStop(k) => OnPressStop(s, k)
    case Test(id) => OnTest(s, id)
    case Wake(id, wh) => OnWake(s, id, wh)
    case ReadingSent(id) => OnReadingSent(s, id)
  }

  function Exec(n: nat, es: seq<Step>): Station {
    if es == [] then Init(n) else Next(Exec(n, es[..|es| - 1]), es[|es| - 1])
  }

  // ----- The language of the wire -----

  /** A transaction's life on the wire: its last register and whether it was stopped. */
  datatype Life = Life(lastWh: int, stopped: bool)

  /** A frame is in order: starts are fresh and at 0, readings follow and never fall, and the one stop repeats the last register. */
  predicate InOrder(lives: map<Tx, Life>, f: Frame) {
    match f
    case Start(_, tx, m) => tx != "" && tx !in lives && m == 0
    case Reading(_, tx, wh) => tx in lives && !lives[tx].stopped && lives[tx].lastWh <= wh
    case Stop(_, tx, m) => tx in lives && !lives[tx].stopped && lives[tx].lastWh == m
  }

  function After(lives: map<Tx, Life>, f: Frame): map<Tx, Life> {
    match f
    case Start(_, tx, m) => lives[tx := Life(m, false)]
    case Reading(_, tx, wh) => lives[tx := Life(wh, false)]
    case Stop(_, tx, m) => lives[tx := Life(m, true)]
  }

  function Lives(wire: seq<Frame>): map<Tx, Life> {
    if wire == [] then map[] else After(Lives(wire[..|wire| - 1]), wire[|wire| - 1])
  }

  /** Every frame of the wire is in order after those before it. */
  ghost predicate Conforms(wire: seq<Frame>) {
    forall i :: 0 <= i < |wire| ==> InOrder(Lives(wire[..i]), wire[i])
  }

  lemma ConformsSnoc(wire: seq<Frame>, f: Frame)
    requires Conforms(wire) && InOrder(Lives(wire), f)
    ensures Conforms(wire + [f]) && Lives(wire + [f]) == After(Lives(wire), f)
  {
    var w := wire + [f];
    assert w[..|wire|] == wire;
    forall i | 0 <= i < |w| ensures InOrder(Lives(w[..i]), w[i]) {
      if i < |wire| {
        assert w[..i] == wire[..i];
      }
    }
  }

  // ----- Every run speaks that language -----

  ghost predicate RunsTx(s: Station, k: nat)
    requires k < |s.connectors|
  {
    var c := s.connectors[k];
    && c.energyWh >= 0
    && (c.active <==> c.tx.Some?)
    && (c.tx.Some? ==>
          && c.tx.value in Lives(s.wire) && !Lives(s.wire)[c.tx.value].stopped
          && Lives(s.wire)[c.tx.value].lastWh == c.energyWh)
  }

  ghost predicate SimInv(s: Station) {
    && Conforms(s.wire)
    && Lives(s.wire).Keys == s.used
    && (forall k :: 0 <= k < |s.connectors| ==> RunsTx(s, k))
    && Distinct(s.connectors)
  }

  /** No two connectors run the same transaction. */
  ghost predicate Distinct(cs: seq<Connector>) {
    forall j, k :: 0 <= j < k < |cs| && cs[j].tx.Some? ==> cs[j].tx != cs[k].tx
  }

  /** Updating connector k keeps transactions distinct if it runs none, the one it ran, or a fresh one. */
  lemma DistinctUpdate(cs: seq<Connector>, k: nat, c: Connector)
    requires Distinct(cs) && k < |cs|
    requires c.tx == cs[k].tx || forall j :: 0 <= j < |cs| && c.tx.Some? ==> cs[j].tx != c.tx
    ensures Distinct(cs[k := c])
  {
  }

  /** A frame of transaction t leaves every connector that runs another one as it was. */
  lemma RunsElsewhere(s: Station, s': Station, j: nat, t: Tx, life: Life)
    requires j < |s.connectors| && RunsTx(s, j) && s.connectors[j].tx != Some(t)
    requires j < |s'.connectors| && s'.connectors[j] == s.connectors[j]
    requires Lives(s'.wire) == Lives(s.wire)[t := life]
    ensures RunsTx(s', j)
  {
  }

  /** One connector's update and one frame of the transaction it runs keep the invariant. */
  lemma FrameKeeps(s: Station, s': Station, k: nat, c: Connector, t: Tx, f: Frame)
    requires SimInv(s) && k < |s.connectors| && s'.connectors == s.connectors[k := c] && s'.wire == s.wire + [f]
    requires InOrder(Lives(s.wire), f) && f.tx == t && s'.used == s.used + {t}
    requires c.tx.None? || c.tx == Some(t)
    requires forall j :: 0 <= j < |s.connectors| && j != k ==> s.connectors[j].tx != Some(t)
    requires c.energyWh >= 0 && (c.active <==> c.tx.Some?)
    requires c.tx == Some(t) ==> After(Lives(s.wire), f)[t] == Life(c.energyWh, false)
    ensures SimInv(s')
  {
    ConformsSnoc(s.wire, f);
    var life := After(Lives(s.wire), f)[t];
    assert After(Lives(s.wire), f) == Lives(s.wire)[t := life];
    DistinctUpdate(s.connectors, k, c);
    forall j | 0 <= j < |s'.connectors| ensures RunsTx(s', j) {
      if j != k {
        assert RunsTx(s, j);
        RunsElsewhere(s, s', j, t, life);
      }
    }
  }

  /** The transaction a connector runs is in use and no other connector runs it. */
  lemma RunsAlone(s: Station, k: nat)
    requires SimInv(s) && k < |s.connectors| && s.connectors[k].tx.Some?
    ensures s.connectors[k].tx.value in s.used
    ensures forall j :: 0 <= j < |s.connectors| && j != k ==> s.connectors[j].tx != s.connectors[k].tx
  {
    assert RunsTx(s, k);
  }

  lemma PressStartKeeps(s: Station, k: nat, tx: Tx)
    requires SimInv(s)
    ensures SimInv(OnPressStart(s, k, tx))
  {
    if k < |s.connectors| && !s.connectors[k].active && tx != "" && tx !in s.used {
      var s' := OnPressStart(s, k, tx);
      forall j | 0 <= j < |s.connectors| ensures s.connectors[j].tx != Some(tx) {
        assert RunsTx(s, j);
      }
      FrameKeeps(s, s', k, s.connectors[k].(active := true, tx := Some(tx), energyWh := 0), tx, Start(k + 1, tx, 0));
    }
  }

  lemma PressStopKeeps(s: Station, k: nat)
    requires SimInv(s)
    ensures SimInv(OnPressStop(s, k))
  {
    if k < |s.connectors| && s.connectors[k].active && s.connectors[k].tx.Some? {
      var s', c := OnPressStop(s, k), s.connectors[k];
      assert RunsTx(s, k);
      RunsAlone(s, k);
      assert s'.used == s.used + {c.tx.value};
      FrameKeeps(s, s', k, Connector(false, None, c.energyWh, None), c.tx.value, Stop(k + 1, c.tx.value, c.energyWh));
    }
  }

  lemma GrowKeeps(s: Station, k: nat, wh: nat)
    requires SimInv(s) && k < |s.connectors| && s.connectors[k].energyWh + wh <= MAX_INT64
    ensures SimInv(Grow(s, k, wh))
  {
    var s', c := Grow(s, k, wh), s.connectors[k];
    var c' := c.(energyWh := c.energyWh + wh);
    assert RunsTx(s, k);
    if c.tx.Some? {
      RunsAlone(s, k);
      assert s'.used == s.used + {c.tx.value};
      FrameKeeps(s, s', k, c', c.tx.value, Reading(k + 1, c.tx.value, c'.energyWh));
    } else {
      QuietKeeps(s, s', k, c');
    }
  }

  /** A connector that runs nothing may change its energy. */
  lemma QuietKeeps(s: Station, s': Station, k: nat, c: Connector)
    requires SimInv(s) && k < |s.connectors| && s'.connectors == s.connectors[k := c] && s'.wire == s.wire && s'.used == s.used
    requires s.connectors[k].tx.None? && c.tx.None? && !c.active && c.energyWh >= 0
    ensures SimInv(s')
  {
    DistinctUpdate(s.connectors, k, c);
    forall j | 0 <= j < |s'.connectors| ensures RunsTx(s', j) {
      assert RunsTx(s, j);
    }
  }

  /** Coroutines are not part of the invariant. */
  lemma CoroutinesKeep(s: Station, s': Station)
    requires SimInv(s) && s'.connectors == s.connectors && s'.wire == s.wire && s'.used == s.used
    ensures SimInv(s')
  {
    forall j | 0 <= j < |s'.connectors| ensures RunsTx(s', j) {
      assert RunsTx(s, j);
    }
  }

  lemma StepKeeps(s: Station, e: Step)
    requires SimInv(s)
    ensures SimInv(Next(s, e))
  {
    match e
    case PressStart(k, txId) => PressStartKeeps(s, k, txId);
    case PressStop(k) => PressStopKeeps(s, k);
    case Wake(id, wh) =>
      if id in s.coroutines && s.coroutines[id].EnergySleeping? && s.coroutines[id].k < |s.connectors| {
        var k := s.coroutines[id].k;
        if s.connectors[k].energyWh + wh <= MAX_INT64 {
          GrowKeeps(s, k, wh);
          CoroutinesKeep(Grow(s, k, wh), Next(s, e));
        }
      }
    case StartSent(id) =>
      var s' := Next(s, e);
      forall j | 0 <= j < |s'.connectors| ensures RunsTx(s', j) {
        assert RunsTx(s, j);
      }
    case _ => CoroutinesKeep(s, Next(s, e));
  }

  /**
   * At every interleaving of the coroutines the wire is in order: one start at 0, rising readings, and at most one stop,
   * which repeats the last register.
   */
  lemma {:induction false} RunConforms(n: nat, es: seq<Step>)
    ensures SimInv(Exec(n, es)) && Conforms(Exec(n, es).wire)
  {
    if es != [] {
      RunConforms(n, es[..|es| - 1]);
      StepKeeps(Exec(n, es[..|es| - 1]), es[|es| - 1]);
    }
  }

  // ----- What the registers on the wire are -----

  /** The label starts a session on connector k. */
  predicate StartsOn(s: Station, e: Step, k: nat) {
    e.PressStart? && e.k == k < |s.connectors| && !s.connectors[k].active && e.txId != "" && e.txId !in s.used
  }

  /** The label stops the session on connector k. */
  predicate StopsOn(s: Station, e: Step, k: nat) {
    e.PressStop? && e.k == k < |s.connectors| && s.connectors[k].active && s.connectors[k].tx.Some?
  }

  /** The label wakes an energy task of connector k, whose register has room. */
  predicate WakesOn(s: Station, e: Step, k: nat) {
    && e.Wake? && e.id in s.coroutines && s.coroutines[e.id] == EnergySleeping(k)
    && k < |s.connectors| && s.connectors[k].energyWh + e.wh <= MAX_INT64
  }

  /** The energy delivered on connector k since its last start: the sum over the wakings of its energy tasks. */
  function Delivered(n: nat, es: seq<Step>, k: nat): (wh: nat) {
    if es == [] then 0
    else
      var p, e := es[..|es| - 1], es[|es| - 1];
      if StartsOn(Exec(n, p), e, k) then 0
      else if WakesOn(Exec(n, p), e, k) then Delivered(n, p, k) + e.wh
      else Delivered(n, p, k)
  }

  /** The transaction of the last start on connector k that was not stopped since. */
  function Running(n: nat, es: seq<Step>, k: nat): (tx: Option<Tx>) {
    if es == [] then None
    else
      var p, e := es[..|es| - 1], es[|es| - 1];
      if StartsOn(Exec(n, p), e, k) then Some(e.txId)
      else if StopsOn(Exec(n, p), e, k) then None
      else Running(n, p, k)
  }

  /** The connectors hold what the labels say. */
  ghost predicate Carry(n: nat, es: seq<Step>, s: Station) {
    && |s.connectors| == n
    && forall k :: 0 <= k < n ==> s.connectors[k].energyWh == Delivered(n, es, k) && s.connectors[k].tx == Running(n, es, k)
  }

  /** What a step does to connector k. */
  lemma StepConnector(s: Station, e: Step, k: nat)
    requires k < |s.connectors|
    ensures var s', c := Next(s, e), s.connectors[k];
            && |s'.connectors| == |s.connectors|
            && s'.connectors[k].tx == (if StartsOn(s, e, k) then Some(e.txId) else if StopsOn(s, e, k) then None else c.tx)
            && s'.connectors[k].energyWh == if StartsOn(s, e, k) then 0 else if WakesOn(s, e, k) then c.energyWh + e.wh else c.energyWh
  {
  }

  lemma {:induction false} ConnectorsCarry(n: nat, es: seq<Step>)
    ensures Carry(n, es, Exec(n, es))
  {
    if es != [] {
      var p, e := es[..|es| - 1], es[|es| - 1];
      ConnectorsCarry(n, p);
      var s := Exec(n, p);
      forall k | 0 <= k < n
        ensures Exec(n, es).connectors[k].energyWh == Delivered(n, es, k) && Exec(n, es).connectors[k].tx == Running(n, es, k)
      {
        StepConnector(s, e, k);
      }
      if n > 0 {
        StepConnector(s, e, 0);
      } else {
        assert |Next(s, e).connectors| == 0;
      }
    }
  }

  /** After the run p, the label e sends the frame f. */
  ghost predicate SentBy(n: nat, p: seq<Step>, e: Step, f: Frame) {
    var s := Exec(n, p);
    f.connector >= 1 &&
    var k: nat := f.connector - 1;
    match f
    case Start(_, tx, m) => StartsOn(s, e, k) && tx == e.txId && m == 0
    case Reading(_, tx, wh) => WakesOn(s, e, k) && Running(n, p, k) == Some(tx) && wh == Delivered(n, p, k) + e.wh
    case Stop(_, tx, m) => StopsOn(s, e, k) && Running(n, p, k) == Some(tx) && m == Delivered(n, p, k)
  }

  /** The label sends a frame: it starts or stops a session, or wakes an energy task of a connector with a transaction. */
  ghost predicate Sends(n: nat, p: seq<Step>, e: Step) {
    var s := Exec(n, p);
    match e
    case PressStart(k, _) => StartsOn(s, e, k)
    case PressStop(k) => StopsOn(s, e, k)
    case Wake(id, _) => id in s.coroutines && WakesOn(s, e, s.coroutines[id].k) && Running(n, p, s.coroutines[id].k).Some?
    case _ => false
  }

  /** One more label puts at most one more frame on the wire. */
  ghost predicate WireGrows(wire: seq<Frame>, wire': seq<Frame>) {
    |wire'| == |wire| + 1 && wire'[..|wire|] == wire
  }

  lemma PressSends(n: nat, p: seq<Step>, e: Step, s: Station, s': Station)
    requires s == Exec(n, p) && Carry(n, p, s) && s' == Next(s, e) && (e.PressStart? || e.PressStop?)
    ensures !Sends(n, p, e) ==> s'.wire == s.wire
    ensures Sends(n, p, e) ==> WireGrows(s.wire, s'.wire) && SentBy(n, p, e, s'.wire[|s.wire|])
  {
  }

  lemma WakeSends(n: nat, p: seq<Step>, e: Step, s: Station, s': Station)
    requires s == Exec(n, p) && Carry(n, p, s) && s' == Next(s, e) && e.Wake?
    ensures !Sends(n, p, e) ==> s'.wire == s.wire
    ensures Sends(n, p, e) ==> WireGrows(s.wire, s'.wire) && SentBy(n, p, e, s'.wire[|s.wire|])
  {
    if e.id in s.coroutines && s.coroutines[e.id].EnergySleeping? && s.coroutines[e.id].k < n {
      assert s.connectors[s.coroutines[e.id].k].tx == Running(n, p, s.coroutines[e.id].k);
    }
  }

  /** A label adds to the wire exactly when it sends, and then exactly the frame it sends. */
  lemma StepSends(n: nat, p: seq<Step>, e: Step, s: Station, s': Station)
    requires s == Exec(n, p) && Carry(n, p, s) && s' == Next(s, e)
    ensures !Sends(n, p, e) ==> s'.wire == s.wire
    ensures Sends(n, p, e) ==> WireGrows(s.wire, s'.wire) && SentBy(n, p, e, s'.wire[|s.wire|])
  {
    if e.PressStart? || e.PressStop? {
      PressSends(n, p, e, s, s');
    } else if e.Wake? {
      WakeSends(n, p, e, s, s');
    }
  }

  /** Frame i of the run's wire was sent by label j, with the wire up to it as it stands. */
  ghost predicate SentAt(n: nat, es: seq<Step>, i: nat, j: nat)
    requires i < |Exec(n, es).wire|
  {
    j < |es| && |Exec(n, es[..j]).wire| == i && SentBy(n, es[..j], es[j], Exec(n, es).wire[i])
  }

  /**
   * For every run: each frame on the wire was sent by a label of the run, frames in the order of their labels; a start is
   * sent at 0; a reading carries the sum of all energy delivered on its connector since the start of the transaction that
   * runs there, and a stop carries that sum too.
   */
  lemma {:induction false} RegistersAreDeliveredEnergy(n: nat, es: seq<Step>, i: nat) returns (j: nat)
    requires i < |Exec(n, es).wire|
    ensures SentAt(n, es, i, j)
  {
    var p, e := es[..|es| - 1], es[|es| - 1];
    ConnectorsCarry(n, p);
    StepSends(n, p, e, Exec(n, p), Exec(n, es));
    if i < |Exec(n, p).wire| {
      j := RegistersAreDeliveredEnergy(n, p, i);
      assert p[..j] == es[..j] && p[j] == es[j];
      assert Exec(n, es).wire[i] == Exec(n, p).wire[i];
    } else {
      j := |p|;
      assert es[..j] == p;
    }
  }

  // ----- A session from start to stop -----

  function SumTo(ws: seq<nat>): (wh: nat) {
    if ws == [] then 0 else SumTo(ws[..|ws| - 1]) + ws[|ws| - 1]
  }

  /** Connector 0 of a station of one starts tx, delivers ws one after the other, and has not stopped. */
  function Session(tx: Tx, ws: seq<nat>): (es: seq<Step>) {
    if ws == [] then [PressStart(0, tx), StartSent(0)]
    else Session(tx, ws[..|ws| - 1]) + [Test(1)] + [Wake(1, ws[|ws| - 1])] + [ReadingSent(1)]
  }

  /** Its wire: the start, then one reading per delivery with the sum so far. */
  ghost predicate SessionWire(wire: seq<Frame>, tx: Tx, ws: seq<nat>) {
    && |wire| == |ws| + 1 && wire[0] == Start(1, tx, 0)
    && forall i :: 0 < i <= |ws| ==> wire[i].Reading? && wire[i].connector == 1 && wire[i].tx == tx && wire[i].wh == SumTo(ws[..i])
  }

  ghost predicate InSession(s: Station, tx: Tx, wh: nat) {
    && |s.connectors| == 1 && s.connectors[0].active && s.connectors[0].tx == Some(tx) && s.connectors[0].energyWh == wh
    && 1 in s.coroutines && s.coroutines[1] == EnergyTest(0) && s.connectors[0].energyTask == Some(1)
  }

  lemma ExecSnoc(n: nat, es: seq<Step>, e: Step)
    ensures Exec(n, es + [e]) == Next(Exec(n, es), e)
  {
    assert (es + [e])[..|es|] == es;
  }

  /** One turn of the energy task: test, sleep, grow, send. */
  lemma EnergyTurn(s: Station, tx: Tx, wh: nat, w: nat)
    requires InSession(s, tx, wh) && wh + w <= MAX_INT64
    ensures var s' := Next(Next(Next(s, Test(1)), Wake(1, w)), ReadingSent(1));
            InSession(s', tx, wh + w) && s'.wire == s.wire + [Reading(1, tx, wh + w)]
  {
  }

  lemma SessionBegins(tx: Tx)
    requires tx != ""
    ensures var s := Exec(1, Session(tx, [])); InSession(s, tx, 0) && s.wire == [Start(1, tx, 0)]
  {
    assert [PressStart(0, tx), StartSent(0)] == [] + [PressStart(0, tx)] + [StartSent(0)];
    ExecSnoc(1, [], PressStart(0, tx));
    ExecSnoc(1, [] + [PressStart(0, tx)], StartSent(0));
  }

  lemma SessionSnoc(tx: Tx, ws: seq<nat>, w: nat)
    ensures Exec(1, Session(tx, ws + [w])) == Next(Next(Next(Exec(1, Session(tx, ws)), Test(1)), Wake(1, w)), ReadingSent(1))
  {
    var es := Session(tx, ws);
    assert (ws + [w])[..|ws|] == ws;
    assert Session(tx, ws + [w]) == es + [Test(1)] + [Wake(1, w)] + [ReadingSent(1)];
    ExecSnoc(1, es, Test(1));
    ExecSnoc(1, es + [Test(1)], Wake(1, w));
    ExecSnoc(1, es + [Test(1)] + [Wake(1, w)], ReadingSent(1));
  }

  /** Whatever is delivered, the session runs, with a reading for every delivery. */
  lemma {:induction false} SessionRuns(tx: Tx, ws: seq<nat>)
    requires tx != "" && SumTo(ws) <= MAX_INT64
    ensures var s := Exec(1, Session(tx, ws)); InSession(s, tx, SumTo(ws)) && SessionWire(s.wire, tx, ws)
  {
    if ws == [] {
      SessionBegins(tx);
    } else {
      var m := |ws| - 1;
      var p, w := ws[..m], ws[m];
      assert ws == p + [w];
      SessionRuns(tx, p);
      SessionSnoc(tx, p, w);
      EnergyTurn(Exec(1, Session(tx, p)), tx, SumTo(p), w);
      SessionWireGrows(Exec(1, Session(tx, p)).wire, tx, p, w);
    }
  }

  lemma SessionWireGrows(wire: seq<Frame>, tx: Tx, ws: seq<nat>, w: nat)
    requires SessionWire(wire, tx, ws) && SumTo(ws) + w <= MAX_INT64
    ensures SumTo(ws + [w]) == SumTo(ws) + w && SessionWire(wire + [Reading(1, tx, SumTo(ws) + w)], tx, ws + [w])
  {
    var all := ws + [w];
    assert all[..|ws|] == ws && all[..|all|] == all;
    forall i | 0 < i <= |ws| ensures all[..i] == ws[..i] {
    }
  }

  /** And its stop carries all that was delivered, ends its energy task, and leaves the connector free. */
  lemma SessionStops(tx: Tx, ws: seq<nat>)
    requires tx != "" && SumTo(ws) <= MAX_INT64
    ensures var s, s' := Exec(1, Session(tx, ws)), Exec(1, Session(tx, ws) + [PressStop(0)]);
            && s'.wire == s.wire + [Stop(1, tx, SumTo(ws))]
            && !s'.connectors[0].active && s'.connectors[0].tx.None? && s'.connectors[0].energyTask.None? && 1 !in s'.coroutines
  {
    SessionRuns(tx, ws);
    ExecSnoc(1, Session(tx, ws), PressStop(0));
  }

  /**
   * A start, a stop and another start before the first start's frame is out leave two energy tasks on the connector, both
   * of which go on: it then grows at twice the pace, and a stop ends only the later one.
   */
  lemma QuickRestartDoublesTasks()
    ensures var s := Next(Next(Next(Next(Next(Init(1), PressStart(0, "A")), PressStop(0)), PressStart(0, "B")), StartSent(0)), StartSent(1));
            && s.connectors[0].active && s.connectors[0].tx == Some("B")
            && s.coroutines == map[2 := EnergyTest(0), 3 := EnergyTest(0)] && s.connectors[0].energyTask == Some(3)
            && Next(s, PressStop(0)).coroutines == map[2 := EnergyTest(0)]
  {
    var s1 := Next(Init(1), PressStart(0, "A"));
    var s2 := Next(s1, PressStop(0));
    var s3 := Next(s2, PressStart(0, "B"));
    assert s3.coroutines == map[0 := SendingStart(0), 1 := SendingStart(0)];
    var s5 := Next(Next(s3, StartSent(0)), StartSent(1));
    assert s5.coroutines == map[2 := EnergyTest(0), 3 := EnergyTest(0)];
  }
}
