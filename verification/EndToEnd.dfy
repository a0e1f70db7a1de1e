/**
 * End to end: the simulator's wire handled in order by the transaction handlers. What becomes of the calls made for a
 * frame, and the tariff in force, may differ from frame to frame.
 */
module EndToEnd {
  import opened Billing
  import opened Charging
  import opened Handlers
  import opened Meter
  import opened SessionTable
  import Simulator
  import Telemetry

  type Frame = Simulator.Frame
  type Life = Simulator.Life

  /** What becomes of the calls made for one frame: is its reading filed, its Start or Stop recorded, its bill written? */
  datatype Fate = Fate(kept: bool, start: StartFate, stopDone: bool, bill: BillFate)

  type Fates = nat -> Fate

  function Handle(v: Server, f: Frame, fate: Fate): Server {
    match f
    case Start(connector, tx, m) => AfterStart(v, "CS", connector, tx, m, fate.start)
    case Reading(_, tx, wh) => AfterMeter(v, tx, wh as real / 1000.0, fate.kept)
    case Stop(_, tx, m) => AfterStop(v, tx, m, fate.stopDone, fate.bill)
  }

  /** The server after handling the wire in order. */
  function Handled(wire: seq<Frame>, fates: Fates): Server {
    if wire == [] then Server(map[], Empty(), [], [])
    else Handle(Handled(wire[..|wire| - 1], fates), wire[|wire| - 1], fates(|wire| - 1))
  }

  /** Billing records every row: there is a tariff and inserts succeed. */
  predicate Pays(fate: BillFate) { fate.done && Usable(fate.source, fate.defaultPrice) }

  /** Every call succeeds except that readings may be lost. */
  predicate Reliable(fate: Fate) { fate.start.done && fate.start.replied && fate.stopDone && Pays(fate.bill) }

  ghost predicate AllReliable(fates: Fates, n: nat) { forall i: nat :: i < n ==> Reliable(fates(i)) }

  /** The ledger rows of a session, in order. */
  function BilledTo(ledger: seq<Bill>, session: int): (r: seq<Bill>) {
    if ledger == [] then []
    else
      var last := ledger[|ledger| - 1];
      BilledTo(ledger[..|ledger| - 1], session) + if last.sessionId == session then [last] else []
  }

  /** Exactly one row for the session, with this energy. */
  ghost predicate BilledOnce(ledger: seq<Bill>, session: int, wh: int) {
    |BilledTo(ledger, session)| == 1 && BilledTo(ledger, session)[0].energyWh == wh
  }

  lemma BilledSnoc(ledger: seq<Bill>, b: Bill, session: int)
    ensures BilledTo(ledger + [b], session) == BilledTo(ledger, session) + if b.sessionId == session then [b] else []
  {
    assert (ledger + [b])[..|ledger|] == ledger;
  }

  lemma ValuesSnoc(rows: seq<Telemetry.Row>, r: Telemetry.Row, session: int)
    ensures Telemetry.Values(rows + [r], session) == Telemetry.Values(rows, session) + if r.0 == session then [r.1] else []
  {
    assert (rows + [r])[..|rows|] == rows;
  }

  ghost predicate Within(values: seq<real>, wh: int) {
    forall x :: x in values ==> 0.0 <= x <= wh as real / 1000.0
  }

  /** What the server knows of one transaction, given its life on the wire. */
  ghost predicate Tracked(v: Server, tx: string, life: Life) {
    && tx != "" && tx in v.table.rows
    && var row := v.table.rows[tx];
       && 1 <= row.id < v.table.nextId && 0 <= life.lastWh
       && Within(Telemetry.Values(v.readings, row.id), life.lastWh)
       && if life.stopped
          then tx !in v.store && row.status == Completed && row.energyWh == life.lastWh && BilledOnce(v.ledger, row.id, life.lastWh)
          else tx in v.store && v.store[tx].sessionId == row.id && v.store[tx].meterStart == 0 && BilledTo(v.ledger, row.id) == []
  }

  ghost predicate Follows(v: Server, lives: map<string, Life>) {
    && Wf(v.table) && v.table.rows.Keys == lives.Keys
    && (forall tx :: tx in lives ==> Tracked(v, tx, lives[tx]))
    && (forall tx :: tx in v.store ==> tx in lives)
    && (forall id :: id >= v.table.nextId ==> BilledTo(v.ledger, id) == [] && Telemetry.Values(v.readings, id) == [])
  }

  lemma StartFollows(v: Server, lives: map<string, Life>, f: Frame, fate: Fate)
    requires Follows(v, lives) && f.Start? && Simulator.InOrder(lives, f) && Reliable(fate)
    ensures Follows(Handle(v, f, fate), Simulator.After(lives, f))
  {
    var v', lives' := Handle(v, f, fate), Simulator.After(lives, f);
    UpsertKeeps(v.table, f.tx, "CS", f.connector);
    var id := v.table.nextId;
    assert v' == Server(v.store[f.tx := Context(id, f.meterStart)], Upsert(v.table, f.tx, "CS", f.connector), v.ledger, v.readings);
    assert BilledTo(v.ledger, id) == [] && Telemetry.Values(v.readings, id) == [];
    forall tx | tx in lives' ensures Tracked(v', tx, lives'[tx]) {
      if tx != f.tx {
        StaysTracked(v, v', tx, lives[tx]);
      }
    }
  }

  /** A reading of an open transaction is filed under its row's id, or lost. */
  lemma ReadingEffect(v: Server, lives: map<string, Life>, f: Frame, fate: Fate)
    requires Follows(v, lives) && f.Reading? && Simulator.InOrder(lives, f)
    ensures f.tx in v.table.rows && v.table.rows[f.tx].id != 0 && f.wh >= 0
    ensures Handle(v, f, fate) ==
            if fate.kept then v.(readings := v.readings + [(v.table.rows[f.tx].id, f.wh as real / 1000.0)]) else v
  {
    assert Tracked(v, f.tx, lives[f.tx]);
  }

  /** The life of an open transaction may grow while nothing of it changes on the server. */
  lemma LaterTracked(v: Server, tx: string, life: Life, wh: int)
    requires Tracked(v, tx, life) && !life.stopped && life.lastWh <= wh
    ensures Tracked(v, tx, Simulator.Life(wh, false))
  {
  }

  /** One more reading of tx, between 0 and its life's last register. */
  lemma FiledTracked(v: Server, tx: string, life: Life, kwh: real)
    requires Tracked(v, tx, life) && !life.stopped && 0.0 <= kwh <= life.lastWh as real / 1000.0
    ensures Tracked(v.(readings := v.readings + [(v.table.rows[tx].id, kwh)]), tx, life)
  {
    ValuesSnoc(v.readings, (v.table.rows[tx].id, kwh), v.table.rows[tx].id);
  }

  lemma LostReadingFollows(v: Server, lives: map<string, Life>, f: Frame)
    requires Follows(v, lives) && f.Reading? && Simulator.InOrder(lives, f)
    ensures Follows(v, Simulator.After(lives, f))
  {
    var lives' := Simulator.After(lives, f);
    forall tx | tx in lives' ensures Tracked(v, tx, lives'[tx]) {
      assert Tracked(v, tx, lives[tx]);
      if tx == f.tx {
        LaterTracked(v, tx, lives[tx], f.wh);
      }
    }
  }

  lemma FiledOther(v: Server, v': Server, tx: string, kwh: real, x: string, life: Life)
    requires Wf(v.table) && tx in v.table.rows && v' == v.(readings := v.readings + [(v.table.rows[tx].id, kwh)])
    requires Tracked(v, x, life) && x != tx
    ensures Tracked(v', x, life)
  {
    assert v.table.rows[x].id != v.table.rows[tx].id;
    ValuesSnoc(v.readings, (v.table.rows[tx].id, kwh), v.table.rows[x].id);
    StaysTracked(v, v', x, life);
  }

  /** A row filed for tx changes nothing for the other transactions. */
  lemma FiledFollows(v: Server, v': Server, lives: map<string, Life>, tx: string, wh: nat)
    requires Follows(v, lives) && tx in lives && lives[tx] == Simulator.Life(wh, false)
    requires v' == v.(readings := v.readings + [(v.table.rows[tx].id, wh as real / 1000.0)])
    ensures Follows(v', lives)
  {
    var row := (v.table.rows[tx].id, wh as real / 1000.0);
    assert Tracked(v, tx, lives[tx]);
    forall x | x in lives ensures Tracked(v', x, lives[x]) {
      if x == tx {
        FiledTracked(v, tx, lives[tx], row.1);
      } else {
        FiledOther(v, v', tx, row.1, x, lives[x]);
      }
    }
    forall id | id >= v'.table.nextId ensures Telemetry.Values(v'.readings, id) == [] {
      ValuesSnoc(v.readings, row, id);
    }
  }

  lemma ReadingFollows(v: Server, lives: map<string, Life>, f: Frame, fate: Fate)
    requires Follows(v, lives) && f.Reading? && Simulator.InOrder(lives, f)
    ensures Follows(Handle(v, f, fate), Simulator.After(lives, f))
  {
    ReadingEffect(v, lives, f, fate);
    LostReadingFollows(v, lives, f);
    if fate.kept {
      FiledFollows(v, Handle(v, f, fate), Simulator.After(lives, f), f.tx, f.wh);
    }
  }

  /** A Stop of an open transaction bills the register itself, since the register started at 0. */
  lemma StopEffect(v: Server, lives: map<string, Life>, f: Frame, fate: Fate) returns (bill: Bill)
    requires Follows(v, lives) && f.Stop? && Simulator.InOrder(lives, f) && Reliable(fate)
    ensures bill.sessionId == v.table.rows[f.tx].id && bill.energyWh == f.meterStop
    ensures Charges(bill, fate.bill.source, fate.bill.defaultPrice)
    ensures Handle(v, f, fate) == Server(v.store - {f.tx}, Complete(v.table, f.tx, f.meterStop), v.ledger + [bill], v.readings)
  {
    assert Tracked(v, f.tx, lives[f.tx]);
    EnergyExactIff(f.meterStop, 0);
    MakeBillSound(v.table.rows[f.tx].id, f.meterStop, fate.bill.source, fate.bill.defaultPrice);
    bill := MakeBill(v.table.rows[f.tx].id, f.meterStop, fate.bill.source, fate.bill.defaultPrice).value;
  }

  /** The stopped transaction itself. */
  lemma StoppedTracked(v: Server, v': Server, tx: string, life: Life, wh: int, bill: Bill)
    requires Tracked(v, tx, life) && !life.stopped && life.lastWh <= wh
    requires bill.sessionId == v.table.rows[tx].id && bill.energyWh == wh
    requires v' == Server(v.store - {tx}, Complete(v.table, tx, wh), v.ledger + [bill], v.readings)
    ensures Tracked(v', tx, Simulator.Life(wh, true))
  {
    BilledSnoc(v.ledger, bill, bill.sessionId);
    WithinMore(Telemetry.Values(v.readings, bill.sessionId), life.lastWh, wh);
  }

  /** A transaction that is not the stopped one. */
  lemma StopOther(v: Server, v': Server, stopped: string, wh: int, bill: Bill, tx: string, life: Life)
    requires Wf(v.table) && stopped in v.table.rows && bill.sessionId == v.table.rows[stopped].id
    requires v' == Server(v.store - {stopped}, Complete(v.table, stopped, wh), v.ledger + [bill], v.readings)
    requires Tracked(v, tx, life) && tx != stopped
    ensures Tracked(v', tx, life)
  {
    assert v.table.rows[tx].id != bill.sessionId;
    BilledSnoc(v.ledger, bill, v.table.rows[tx].id);
    StaysTracked(v, v', tx, life);
  }

  lemma StopFollows(v: Server, v': Server, lives: map<string, Life>, f: Frame, bill: Bill)
    requires Follows(v, lives) && f.Stop? && Simulator.InOrder(lives, f)
    requires bill.sessionId == v.table.rows[f.tx].id && bill.energyWh == f.meterStop
    requires v' == Server(v.store - {f.tx}, Complete(v.table, f.tx, f.meterStop), v.ledger + [bill], v.readings)
    ensures Follows(v', Simulator.After(lives, f))
  {
    var lives' := Simulator.After(lives, f);
    assert Tracked(v, f.tx, lives[f.tx]);
    CompleteKeeps(v.table, f.tx, f.meterStop);
    forall tx | tx in lives' ensures Tracked(v', tx, lives'[tx]) {
      if tx == f.tx {
        StoppedTracked(v, v', tx, lives[tx], f.meterStop, bill);
      } else {
        StopOther(v, v', f.tx, f.meterStop, bill, tx, lives[tx]);
      }
    }
    forall id | id >= v'.table.nextId ensures BilledTo(v'.ledger, id) == [] {
      BilledSnoc(v.ledger, bill, id);
    }
  }

  lemma WithinMore(values: seq<real>, wh: int, wh': int)
    requires Within(values, wh) && wh <= wh'
    ensures Within(values, wh')
  {
  }

  /** Nothing that concerns tx changed. */
  lemma StaysTracked(v: Server, v': Server, tx: string, life: Life)
    requires Tracked(v, tx, life) && v.table.nextId <= v'.table.nextId
    requires tx in v'.table.rows && v'.table.rows[tx] == v.table.rows[tx]
    requires (tx in v'.store <==> tx in v.store) && (tx in v.store ==> v'.store[tx] == v.store[tx])
    requires var id := v.table.rows[tx].id;
             BilledTo(v'.ledger, id) == BilledTo(v.ledger, id) && Telemetry.Values(v'.readings, id) == Telemetry.Values(v.readings, id)
    ensures Tracked(v', tx, life)
  {
  }

  lemma {:induction false} WireFollows(wire: seq<Frame>, fates: Fates)
    requires Simulator.Conforms(wire) && AllReliable(fates, |wire|)
    ensures Follows(Handled(wire, fates), Simulator.Lives(wire))
  {
    if wire != [] {
      var n := |wire| - 1;
      var p, f := wire[..n], wire[n];
      PrefixConforms(wire, n);
      WireFollows(p, fates);
      var v, lives := Handled(p, fates), Simulator.Lives(p);
      match f
      case Start(_, _, _) => StartFollows(v, lives, f, fates(n));
      case Reading(_, _, _) => ReadingFollows(v, lives, f, fates(n));
      case Stop(_, _, _) =>
        var bill := StopEffect(v, lives, f, fates(n));
        StopFollows(v, Handled(wire, fates), lives, f, bill);
    }
  }

  lemma PrefixConforms(wire: seq<Frame>, n: nat)
    requires Simulator.Conforms(wire) && n <= |wire|
    ensures Simulator.Conforms(wire[..n])
  {
    forall i | 0 <= i < n ensures Simulator.InOrder(Simulator.Lives(wire[..n][..i]), wire[..n][i]) {
      assert wire[..n][..i] == wire[..i];
    }
  }

  lemma StopEnds(wire: seq<Frame>)
    requires Simulator.Conforms(wire) && wire != [] && wire[|wire| - 1].Stop?
    ensures var stop := wire[|wire| - 1];
            stop.tx in Simulator.Lives(wire) && Simulator.Lives(wire)[stop.tx] == Simulator.Life(stop.meterStop, true)
  {
    LastInOrder(wire);
  }

  /** After its Stop a transaction's life no longer changes. */
  lemma {:induction false} StoppedStays(wire: seq<Frame>, i: nat)
    requires Simulator.Conforms(wire) && i < |wire| && wire[i].Stop?
    ensures wire[i].tx in Simulator.Lives(wire) && Simulator.Lives(wire)[wire[i].tx] == Simulator.Life(wire[i].meterStop, true)
  {
    var n := |wire| - 1;
    if i == n {
      StopEnds(wire);
    } else {
      PrefixConforms(wire, n);
      StoppedStays(wire[..n], i);
      LastInOrder(wire);
      StoppedUntouched(Simulator.Lives(wire[..n]), wire[n], wire[i].tx);
    }
  }

  lemma LastInOrder(wire: seq<Frame>)
    requires Simulator.Conforms(wire) && wire != []
    ensures var p, f := wire[..|wire| - 1], wire[|wire| - 1];
            Simulator.InOrder(Simulator.Lives(p), f) && Simulator.Lives(wire) == Simulator.After(Simulator.Lives(p), f)
  {
  }

  lemma StoppedUntouched(lives: map<string, Life>, f: Frame, tx: string)
    requires Simulator.InOrder(lives, f) && tx in lives && lives[tx].stopped
    ensures tx in Simulator.After(lives, f) && Simulator.After(lives, f)[tx] == lives[tx]
  {
  }

  lemma SpreadWithin(rows: seq<Telemetry.Row>, session: int, wh: int)
    requires Within(Telemetry.Values(rows, session), wh) && wh >= 0
    ensures Telemetry.SumEnergy(rows, session) <= wh as real / 1000.0
  {
  }

  // ----- The tariff of each bill -----

  /** Handling more frames only adds to the ledger. */
  lemma {:induction false} LedgerGrows(wire: seq<Frame>, fates: Fates, i: nat)
    requires i <= |wire|
    ensures Handled(wire[..i], fates).ledger <= Handled(wire, fates).ledger
  {
    if i == |wire| {
      assert wire[..i] == wire;
    } else {
      var p := wire[..|wire| - 1];
      LedgerGrows(p, fates, i);
      assert p[..i] == wire[..i];
    }
  }

  lemma {:induction false} BilledMember(ledger: seq<Bill>, b: Bill)
    requires b in ledger
    ensures b in BilledTo(ledger, b.sessionId)
  {
    var p := ledger[..|ledger| - 1];
    if b in p {
      BilledMember(p, b);
    }
  }

  lemma HandledStep(wire: seq<Frame>, fates: Fates, i: nat)
    requires i < |wire|
    ensures Handled(wire[..i + 1], fates) == Handle(Handled(wire[..i], fates), wire[i], fates(i))
  {
    assert wire[..i + 1][..i] == wire[..i];
  }

  /** An in-order Stop writes a bill at its own tariff. */
  lemma StopWrites(v: Server, lives: map<string, Life>, f: Frame, fate: Fate) returns (bill: Bill)
    requires Follows(v, lives) && f.Stop? && Simulator.InOrder(lives, f) && Reliable(fate)
    ensures bill in Handle(v, f, fate).ledger && Charges(bill, fate.bill.source, fate.bill.defaultPrice)
    ensures f.tx in v.table.rows && bill.sessionId == v.table.rows[f.tx].id
  {
    bill := StopEffect(v, lives, f, fate);
  }

  /** The bill of the Stop at position i is written when it is handled, at the tariff of that frame, and stays. */
  lemma StopBilled(wire: seq<Frame>, fates: Fates, i: nat) returns (bill: Bill)
    requires Simulator.Conforms(wire) && AllReliable(fates, |wire|) && i < |wire| && wire[i].Stop?
    ensures bill in Handled(wire, fates).ledger && Charges(bill, fates(i).bill.source, fates(i).bill.defaultPrice)
    ensures wire[i].tx in Handled(wire[..i], fates).table.rows && bill.sessionId == Handled(wire[..i], fates).table.rows[wire[i].tx].id
  {
    PrefixConforms(wire, i);
    WireFollows(wire[..i], fates);
    bill := StopWrites(Handled(wire[..i], fates), Simulator.Lives(wire[..i]), wire[i], fates(i));
    HandledStep(wire, fates, i);
    LedgerGrows(wire, fates, i + 1);
  }

  lemma HandleKeepsIds(v: Server, f: Frame, fate: Fate)
    requires Wf(v.table)
    ensures Wf(Handle(v, f, fate).table) && KeepsIds(v.table, Handle(v, f, fate).table)
  {
    match f
    case Start(connector, tx, _) => UpsertKeeps(v.table, tx, "CS", connector);
    case Reading(_, _, _) =>
    case Stop(_, tx, m) => CompleteKeeps(v.table, tx, if tx in v.store then EnergyWh(m, v.store[tx].meterStart) else 0);
  }

  lemma {:induction false} HandledWf(wire: seq<Frame>, fates: Fates)
    ensures Wf(Handled(wire, fates).table)
  {
    if wire != [] {
      var n := |wire| - 1;
      HandledWf(wire[..n], fates);
      HandleKeepsIds(Handled(wire[..n], fates), wire[n], fates(n));
    }
  }

  lemma LastKeepsIds(wire: seq<Frame>, fates: Fates)
    requires wire != []
    ensures KeepsIds(Handled(wire[..|wire| - 1], fates).table, Handled(wire, fates).table)
  {
    var n := |wire| - 1;
    HandledWf(wire[..n], fates);
    HandleKeepsIds(Handled(wire[..n], fates), wire[n], fates(n));
  }

  lemma KeepsIdsTransitive(a: Table, b: Table, c: Table)
    requires KeepsIds(a, b) && KeepsIds(b, c)
    ensures KeepsIds(a, c)
  {
  }

  lemma {:induction false} HandledKeepsIds(wire: seq<Frame>, fates: Fates, i: nat)
    requires i <= |wire|
    ensures KeepsIds(Handled(wire[..i], fates).table, Handled(wire, fates).table)
  {
    if i == |wire| {
      assert wire[..i] == wire;
    } else {
      var p := wire[..|wire| - 1];
      assert p[..i] == wire[..i];
      HandledKeepsIds(p, fates, i);
      LastKeepsIds(wire, fates);
      KeepsIdsTransitive(Handled(wire[..i], fates).table, Handled(p, fates).table, Handled(wire, fates).table);
    }
  }

  // ----- The readings on file -----

  /** The readings of tx on the wire that were not lost, in order, in kWh. */
  function Filed(wire: seq<Frame>, fates: Fates, tx: string): (r: seq<real>) {
    if wire == [] then []
    else
      var n := |wire| - 1;
      Filed(wire[..n], fates, tx) +
      if wire[n].Reading? && wire[n].tx == tx && fates(n).kept then [wire[n].wh as real / 1000.0] else []
  }

  lemma FiledSnoc(wire: seq<Frame>, f: Frame, fates: Fates, tx: string)
    ensures Filed(wire + [f], fates, tx) ==
            Filed(wire, fates, tx) + if f.Reading? && f.tx == tx && fates(|wire|).kept then [f.wh as real / 1000.0] else []
  {
    assert (wire + [f])[..|wire|] == wire;
  }

  lemma LivesSnoc(wire: seq<Frame>, f: Frame)
    ensures Simulator.Lives(wire + [f]) == Simulator.After(Simulator.Lives(wire), f)
  {
    assert (wire + [f])[..|wire|] == wire;
  }

  /** Nothing of a transaction that no frame names is filed. */
  lemma {:induction false} UnstartedFiledNothing(wire: seq<Frame>, fates: Fates, tx: string)
    requires tx !in Simulator.Lives(wire)
    ensures Filed(wire, fates, tx) == []
  {
    if wire != [] {
      var p, f := wire[..|wire| - 1], wire[|wire| - 1];
      assert wire == p + [f];
      LivesSnoc(p, f);
      NamesItsTransaction(Simulator.Lives(p), f);
      FiledSnoc(p, f, fates, tx);
      UnstartedFiledNothing(p, fates, tx);
    }
  }

  /** After a frame its transaction is known, and no other has been forgotten. */
  lemma NamesItsTransaction(lives: map<string, Life>, f: Frame)
    ensures Simulator.After(lives, f).Keys == lives.Keys + {f.tx}
  {
  }

  /** What telemetry holds under the ids of two rows after one more frame. */
  lemma StepFiled(v: Server, lives: map<string, Life>, f: Frame, fate: Fate, tx: string, filed: seq<real>)
    requires Follows(v, lives) && Simulator.InOrder(lives, f) && Reliable(fate) && tx in Simulator.After(lives, f)
    requires if tx in lives then Telemetry.Values(v.readings, v.table.rows[tx].id) == filed else filed == []
    ensures var v' := Handle(v, f, fate);
            tx in v'.table.rows &&
            Telemetry.Values(v'.readings, v'.table.rows[tx].id) ==
            filed + if f.Reading? && f.tx == tx && fate.kept then [f.wh as real / 1000.0] else []
  {
    HandleKeepsIds(v, f, fate);
    match f
    case Start(_, _, _) =>
    case Reading(_, _, _) =>
      ReadingEffect(v, lives, f, fate);
      ValuesSnoc(v.readings, (v.table.rows[f.tx].id, f.wh as real / 1000.0), v.table.rows[tx].id);
    case Stop(_, _, _) =>
  }

  /** Telemetry holds, under the id of each transaction's row, exactly its readings that were not lost, in order. */
  lemma {:induction false} TelemetryHoldsFiled(wire: seq<Frame>, fates: Fates, tx: string)
    requires Simulator.Conforms(wire) && AllReliable(fates, |wire|) && tx in Simulator.Lives(wire)
    ensures var v := Handled(wire, fates);
            tx in v.table.rows && Telemetry.Values(v.readings, v.table.rows[tx].id) == Filed(wire, fates, tx)
  {
    var n := |wire| - 1;
    var p := wire[..n];
    PrefixConforms(wire, n);
    LastInOrder(wire);
    WireFollows(p, fates);
    if tx in Simulator.Lives(p) {
      TelemetryHoldsFiled(p, fates, tx);
    } else {
      UnstartedFiledNothing(p, fates, tx);
    }
    StepFiled(Handled(p, fates), Simulator.Lives(p), wire[n], fates(n), tx, Filed(p, fates, tx));
  }

  /** No reading of tx was lost. */
  ghost predicate AllKept(wire: seq<Frame>, fates: Fates, tx: string) {
    forall i :: 0 <= i < |wire| && wire[i].Reading? && wire[i].tx == tx ==> fates(i).kept
  }

  /** With no reading lost, the last one on file is the register of the transaction, or there is none and it is still 0. */
  lemma {:induction false} LastFiled(wire: seq<Frame>, fates: Fates, tx: string)
    requires Simulator.Conforms(wire) && AllKept(wire, fates, tx) && tx in Simulator.Lives(wire)
    ensures var filed, wh := Filed(wire, fates, tx), Simulator.Lives(wire)[tx].lastWh;
            if filed == [] then wh == 0 else filed[|filed| - 1] == wh as real / 1000.0
  {
    var n := |wire| - 1;
    var p := wire[..n];
    PrefixConforms(wire, n);
    LastInOrder(wire);
    assert AllKept(p, fates, tx) by {
      forall i | 0 <= i < |p| && p[i].Reading? && p[i].tx == tx ensures fates(i).kept {
        assert p[i] == wire[i];
      }
    }
    if tx in Simulator.Lives(p) {
      LastFiled(p, fates, tx);
    } else {
      UnstartedFiledNothing(p, fates, tx);
    }
  }

  // ----- The theorem -----

  /** What the three services hold of a stopped transaction. */
  ghost predicate Settled(v: Server, stop: Frame, fate: BillFate)
    requires stop.Stop?
  {
    && stop.tx in v.table.rows
    && var row := v.table.rows[stop.tx];
       && row.status == Completed && row.energyWh == stop.meterStop
       && BilledOnce(v.ledger, row.id, stop.meterStop)
       && Charges(BilledTo(v.ledger, row.id)[0], fate.source, fate.defaultPrice)
       && Telemetry.SumEnergy(v.readings, row.id) <= stop.meterStop as real / 1000.0
  }

  /** The greatest reading on file is the meterStop, or there is none and it is 0. */
  ghost predicate ReachesRegister(values: seq<real>, wh: int) {
    if values == [] then wh == 0 else Telemetry.MaxOf(values) == wh as real / 1000.0
  }

  lemma LastIsGreatest(values: seq<real>, wh: int)
    requires Within(values, wh) && if values == [] then wh == 0 else values[|values| - 1] == wh as real / 1000.0
    ensures ReachesRegister(values, wh)
  {
    if values != [] {
      assert values[|values| - 1] in values;
    }
  }

  /** The row, the bill and the spread of a transaction whose life has ended. */
  lemma RowSettled(v: Server, tx: string, wh: int)
    requires Tracked(v, tx, Simulator.Life(wh, true))
    ensures var row := v.table.rows[tx];
            && row.status == Completed && row.energyWh == wh && BilledOnce(v.ledger, row.id, wh)
            && Telemetry.SumEnergy(v.readings, row.id) <= wh as real / 1000.0
  {
    SpreadWithin(v.readings, v.table.rows[tx].id, wh);
  }

  lemma OnlyBill(ledger: seq<Bill>, bill: Bill, wh: int)
    requires bill in ledger && BilledOnce(ledger, bill.sessionId, wh)
    ensures BilledTo(ledger, bill.sessionId)[0] == bill
  {
    BilledMember(ledger, bill);
  }

  lemma StopSettled(wire: seq<Frame>, fates: Fates, i: nat)
    requires Simulator.Conforms(wire) && AllReliable(fates, |wire|) && i < |wire| && wire[i].Stop?
    ensures Settled(Handled(wire, fates), wire[i], fates(i).bill)
  {
    var v, stop := Handled(wire, fates), wire[i];
    WireFollows(wire, fates);
    StoppedStays(wire, i);
    RowSettled(v, stop.tx, stop.meterStop);
    var bill := StopBilled(wire, fates, i);
    HandledKeepsIds(wire, fates, i);
    OnlyBill(v.ledger, bill, stop.meterStop);
  }

  lemma StopTelemetry(wire: seq<Frame>, fates: Fates, i: nat)
    requires Simulator.Conforms(wire) && AllReliable(fates, |wire|) && i < |wire| && wire[i].Stop?
    ensures var v, stop := Handled(wire, fates), wire[i];
            && stop.tx in v.table.rows
            && Telemetry.Values(v.readings, v.table.rows[stop.tx].id) == Filed(wire, fates, stop.tx)
            && (AllKept(wire, fates, stop.tx) ==> ReachesRegister(Filed(wire, fates, stop.tx), stop.meterStop))
  {
    var v, stop := Handled(wire, fates), wire[i];
    WireFollows(wire, fates);
    StoppedStays(wire, i);
    TelemetryHoldsFiled(wire, fates, stop.tx);
    assert Tracked(v, stop.tx, Simulator.Lives(wire)[stop.tx]);
    if AllKept(wire, fates, stop.tx) {
      LastFiled(wire, fates, stop.tx);
      LastIsGreatest(Filed(wire, fates, stop.tx), stop.meterStop);
    }
  }

  /** The Stop at position i of a run's wire carries the energy delivered on its connector in that transaction. */
  ghost predicate StopIsDelivered(connectors: nat, es: seq<Simulator.Step>, i: nat)
    requires i < |Simulator.Exec(connectors, es).wire| && Simulator.Exec(connectors, es).wire[i].Stop?
  {
    var stop := Simulator.Exec(connectors, es).wire[i];
    exists j :: 0 <= j < |es| && Simulator.SentAt(connectors, es, i, j)
  }

  /**
   * For every simulator run, at every interleaving of its coroutines, at every point of the server's progress, under
   * tariffs that may change at any frame and with any readings lost: for each transaction whose Stop was handled, meterStop
   * is the energy delivered on its connector since it started; the session row is completed with it; the ledger holds
   * exactly one row for that session, with that energy at the tariff in force at that Stop; and telemetry holds exactly the
   * readings that were not lost, their MAX - MIN at most meterStop, and their MAX equal to it when none was lost.
   */
  lemma EnergyAgreesEndToEnd(connectors: nat, es: seq<Simulator.Step>, handled: nat, fates: Fates, i: nat)
    requires var wire := Simulator.Exec(connectors, es).wire; i < handled <= |wire| && wire[i].Stop?
    requires AllReliable(fates, handled)
    ensures StopIsDelivered(connectors, es, i)
    ensures var wire := Simulator.Exec(connectors, es).wire;
            var v, stop := Handled(wire[..handled], fates), wire[i];
            && Settled(v, stop, fates(i).bill)
            && Telemetry.Values(v.readings, v.table.rows[stop.tx].id) == Filed(wire[..handled], fates, stop.tx)
            && (AllKept(wire[..handled], fates, stop.tx) ==> ReachesRegister(Filed(wire[..handled], fates, stop.tx), stop.meterStop))
  {
    var wire := Simulator.Exec(connectors, es).wire;
    Simulator.RunConforms(connectors, es);
    PrefixConforms(wire, handled);
    StopSettled(wire[..handled], fates, i);
    StopTelemetry(wire[..handled], fates, i);
    var j := Simulator.RegistersAreDeliveredEnergy(connectors, es, i);
  }

  /** One frame given to the handler it is routed to. */
  method ServeFrame(h: TransactionHandlers, f: Frame, fate: Fate)
    requires h.Valid() && h.state.Valid() && (f.Start? ==> f.tx != "")
    modifies h, h.store, h.sessions, h.billing, h.state, h.state.Records(), h.state.Maps()
    ensures h.Valid() && h.View() == Handle(old(h.View()), f, fate)
    ensures h.state.Valid() && fresh(h.state.Records() - old(h.state.Records())) && fresh(h.state.Maps() - old(h.state.Maps()))
  {
    match f
    case Start(connector, tx, m) =>
      var outcome := h.StartTransaction("CS", Decoded(StartBody(connector, tx, m)), "generated", fate.start, true);
    case Reading(_, tx, wh) =>
      var outcome := h.MeterValues(Decoded(MeterBody(tx, wh as real / 1000.0)), fate.kept);
    case Stop(_, tx, m) =>
      var outcome := h.StopTransaction("CS", Decoded(StopBody(tx, m)), fate.stopDone, fate.bill, true);
  }

  /** The handlers' methods, fed the frames one after the other, reach exactly that server. */
  method Serve(h: TransactionHandlers, wire: seq<Frame>, fates: Fates)
    requires h.Valid() && h.state.Valid() && h.run == []
    requires forall i :: 0 <= i < |wire| && wire[i].Start? ==> wire[i].tx != ""
    modifies h, h.store, h.sessions, h.billing, h.state, h.state.Records(), h.state.Maps()
    ensures h.Valid() && h.View() == Handled(wire, fates)
  {
    assert wire[..0] == [];
    for n := 0 to |wire|
      invariant h.Valid() && h.View() == Handled(wire[..n], fates)
      invariant h.state.Valid() && fresh(h.state.Records() - old(h.state.Records())) && fresh(h.state.Maps() - old(h.state.Maps()))
    {
      assert wire[..n + 1][..n] == wire[..n];
      ServeFrame(h, wire[n], fates(n));
    }
    assert wire[..|wire|] == wire;
  }
}
