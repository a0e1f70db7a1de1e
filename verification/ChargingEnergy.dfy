/**
 * Conservation of billed energy over every run of the charging protocol, and a run in which an overlap bills twice.
 */
module ChargingEnergy {
  import opened Billing
  import opened Charging
  import opened ChargingLedger
  import opened Meter
  import opened SessionTable

  // ----- Registers that start at or above zero -----

  ghost predicate NonNegativeStarts(es: seq<Step>) {
    forall k :: 0 <= k < |es| && es[k].ReceiveStart? ==> es[k].meterStart >= 0
  }

  ghost predicate PcNonNegative(pc: Pc) {
    && (pc.AwaitSession? ==> pc.meterStart >= 0)
    && (pc.StoringContext? ==> pc.ctx.meterStart >= 0)
  }

  ghost predicate NonNegative(s: System) {
    && (forall c :: c in s.conns ==> PcNonNegative(s.conns[c]))
    && (forall k :: 0 <= k < |s.log| && s.log[k].Started? ==> s.log[k].ctx.meterStart >= 0)
  }

  /** Where a handler waiting for its session or about to store its context can have come from. */
  lemma StartingPcFrom(s: System, e: Step, c: ConnId)
    ensures var pc, pc' := PcOf(s, c), PcOf(Next(s, e), c);
            && (pc'.AwaitSession? ==> pc' == pc || (e.ReceiveStart? && pc'.meterStart == e.meterStart))
            && (pc'.StoringContext? ==> pc' == pc || (pc.AwaitSession? && pc'.ctx.meterStart == pc.meterStart))
  {
    if OfService(e) {
      ServiceKeepsServer(s, e);
    } else if !e.Restart? {
      if e.conn != c {
        OthersStay(s, e, c);
      } else if OfStop(e) {
        StopStartsNothing(s, e);
      }
    }
  }

  lemma StopStartsNothing(s: System, e: Step)
    requires OfStop(e)
    ensures var pc' := PcOf(Next(s, e), e.conn); pc'.AwaitSession? || pc'.StoringContext? ==> pc' == PcOf(s, e.conn)
  {
  }

  lemma StepConnsNonNegative(s: System, e: Step, s': System, c: ConnId)
    requires NonNegative(s) && (e.ReceiveStart? ==> e.meterStart >= 0) && s' == Next(s, e) && c in s'.conns
    ensures PcNonNegative(s'.conns[c])
  {
    StartingPcFrom(s, e, c);
    assert PcNonNegative(PcOf(s, c));
    assert PcOf(s', c) == s'.conns[c];
  }

  lemma StepLogNonNegative(s: System, e: Step, k: nat)
    requires NonNegative(s) && k < |Next(s, e).log| && Next(s, e).log[k].Started?
    ensures Next(s, e).log[k].ctx.meterStart >= 0
  {
    LogOnlyGrows(s, e);
    if k < |s.log| {
      assert Next(s, e).log[k] == s.log[k];
    } else {
      NewStart(s, e);
      assert PcNonNegative(s.conns[e.conn]);
    }
  }

  lemma {:induction false} RunNonNegative(es: seq<Step>)
    requires NonNegativeStarts(es)
    ensures NonNegative(Exec(es))
  {
    if es != [] {
      var p, e := es[..|es| - 1], es[|es| - 1];
      forall k | 0 <= k < |p| && p[k].ReceiveStart? ensures p[k].meterStart >= 0 {
        assert p[k] == es[k];
      }
      RunNonNegative(p);
      var s, s' := Exec(p), Exec(es);
      forall c | c in s'.conns ensures PcNonNegative(s'.conns[c]) {
        StepConnsNonNegative(s, e, s', c);
      }
      forall k | 0 <= k < |s'.log| && s'.log[k].Started? ensures s'.log[k].ctx.meterStart >= 0 {
        StepLogNonNegative(s, e, k);
      }
    }
  }

  // ----- Sums -----

  /** Total energy of the ledger. */
  ghost function LedgerTotal(ledger: seq<Entry>): int {
    if ledger == [] then 0 else LedgerTotal(ledger[..|ledger| - 1]) + ledger[|ledger| - 1].bill.energyWh
  }

  ghost function RecordedStops(ledger: seq<Entry>): set<nat> {
    set n | 0 <= n < |ledger| :: ledger[n].stop
  }

  /** A logged Stop whose Start precedes it. */
  ghost predicate HasStart(log: seq<Event>, i: nat) {
    i < |log| && log[i].Consumed? && log[i].origin < i && log[log[i].origin].Started?
  }

  /** The register growth behind the Stops in `stops` among the first n events. */
  ghost function GrowthOver(log: seq<Event>, stops: set<nat>, n: nat): int
    requires n <= |log|
  {
    if n == 0 then 0
    else GrowthOver(log, stops, n - 1) +
         if n - 1 in stops && HasStart(log, n - 1) then Growth(log[n - 1].meterStop, PaidFrom(log, n - 1).meterStart) else 0
  }

  lemma {:induction false} GrowthOverAdd(log: seq<Event>, stops: set<nat>, i: nat, n: nat)
    requires n <= |log| && i !in stops && HasStart(log, i)
    ensures GrowthOver(log, stops + {i}, n) ==
            GrowthOver(log, stops, n) + if i < n then Growth(log[i].meterStop, PaidFrom(log, i).meterStart) else 0
  {
    if n > 0 {
      GrowthOverAdd(log, stops, i, n - 1);
    }
  }

  lemma {:induction false} GrowthOverNone(log: seq<Event>, n: nat)
    requires n <= |log|
    ensures GrowthOver(log, {}, n) == 0
  {
    if n > 0 {
      GrowthOverNone(log, n - 1);
    }
  }

  lemma {:induction false} TotalIsGrowth(log: seq<Event>, ledger: seq<Entry>)
    requires forall n :: 0 <= n < |ledger| ==> PaidFromLatestStart(log, ledger[n])
    requires forall m, n :: 0 <= m < n < |ledger| ==> ledger[m].stop != ledger[n].stop
    requires forall k :: 0 <= k < |log| && log[k].Started? ==> log[k].ctx.meterStart >= 0
    ensures LedgerTotal(ledger) == GrowthOver(log, RecordedStops(ledger), |log|)
  {
    if ledger == [] {
      assert RecordedStops(ledger) == {};
      GrowthOverNone(log, |log|);
    } else {
      var p, last := ledger[..|ledger| - 1], ledger[|ledger| - 1];
      TotalIsGrowth(log, p);
      assert PaidFromLatestStart(log, last);
      assert RecordedStops(ledger) == RecordedStops(p) + {last.stop} by {
        forall x | x in RecordedStops(ledger) ensures x in RecordedStops(p) + {last.stop} {
          var n :| 0 <= n < |ledger| && ledger[n].stop == x;
          assert n < |p| ==> p[n].stop == x;
        }
        forall n | 0 <= n < |p| ensures p[n].stop in RecordedStops(ledger) {
          assert ledger[n] == p[n];
        }
      }
      assert last.stop !in RecordedStops(p);
      GrowthOverAdd(log, RecordedStops(p), last.stop, |log|);
      EnergyExactIff(log[last.stop].meterStop, PaidFrom(log, last.stop).meterStart);
    }
  }

  /**
   * Ledger conservation, for every run whose registers start at or above zero: no int64 subtraction overflows, the total
   * billed energy is the register growth summed over the Stops that billing recorded (each consumed a context with a
   * positive session id), and every row has a positive price, a non-negative amount and amount = kWh * price.
   */
  lemma LedgerConservation(es: seq<Step>)
    requires NonNegativeStarts(es)
    ensures var s := Exec(es);
            && LedgerTotal(s.ledger) == GrowthOver(s.log, RecordedStops(s.ledger), |s.log|)
            && (forall n :: 0 <= n < |s.ledger| ==>
                  var b := s.ledger[n].bill;
                  && b.sessionId > 0 && b.energyWh >= 0 && b.price > 0.0 && b.amount >= 0.0
                  && b.amount == b.energyWh as real / 1000.0 * b.price)
  {
    RowsPaidFromLatestStart(es);
    RunNonNegative(es);
    RowsNonNegative(Exec(es));
    TotalIsGrowth(Exec(es).log, Exec(es).ledger);
  }

  lemma RowsNonNegative(s: System)
    requires LedgerPaid(s) && NonNegative(s)
    ensures forall n :: 0 <= n < |s.ledger| ==> s.ledger[n].bill.energyWh >= 0 && Sound(s.ledger[n].bill) && s.ledger[n].bill.sessionId > 0
  {
    forall n | 0 <= n < |s.ledger| ensures s.ledger[n].bill.energyWh >= 0 && Sound(s.ledger[n].bill) && s.ledger[n].bill.sessionId > 0 {
      var row := s.ledger[n];
      assert PaidFromLatestStart(s.log, row);
      EnergyExactIff(s.log[row.stop].meterStop, PaidFrom(s.log, row.stop).meterStart);
    }
  }

  // ----- Two connections, one transaction -----

  /** Connection 0 asks for a session for "T" at register 0, and gets id 1. */
  lemma RepliedT() returns (es: seq<Step>, s: System)
    ensures NonNegativeStarts(es) && Exec(es) == s
    ensures s.conns == map[0 := AwaitSession("T", 0, 0)] && s.replies == map[0 := 1]
    ensures s.store == map[] && s.origin == map[] && s.log == [] && s.ledger == [] && "T" in s.table.rows && s.table.rows["T"].id == 1
  {
    var e1, e2 := ReceiveStart(0, "CS", 1, "T", "", 0), ServeStart(0, true);
    assert [] + [e1] == [e1] && [e1] + [e2] == [e1, e2];
    var s1 := Extend([], Init(), e1);
    assert s1.net == map[0 := StartRequest("T", "CS", 1)] && s1.conns == map[0 := AwaitSession("T", 0, 0)];
    s := Extend([e1], s1, e2);
    es := [e1, e2];
  }

  /** Connection 0 has started "T" at register 0 and stored its context. */
  lemma StartedT() returns (es: seq<Step>, s: System)
    ensures NonNegativeStarts(es) && Exec(es) == s
    ensures s.store == map["T" := Context(1, 0)] && s.origin == map["T" := 0] && s.log == [Started("T", Context(1, 0))]
    ensures s.conns == map[0 := Idle] && s.ledger == [] && "T" in s.table.rows && s.table.rows["T"].id == 1
  {
    var es2, s2 := RepliedT();
    var s3 := Extend(es2, s2, StartReplied(0));
    assert s3.conns == map[0 := StoringContext("T", Context(1, 0))];
    s := Extend(es2 + [StartReplied(0)], s3, StoreSet(0));
    es := es2 + [StartReplied(0)] + [StoreSet(0)];
  }

  /** A fresh connection reads the context of tx. */
  lemma ReadOne(es: seq<Step>, s: System, c: ConnId, tx: Tx, meterStop: int64) returns (es': seq<Step>, s': System)
    requires NonNegativeStarts(es) && Exec(es) == s && c !in s.conns && tx in s.store && tx in s.origin
    ensures NonNegativeStarts(es') && Exec(es') == s'
    ensures s'.log == s.log + [Consumed(tx, meterStop, s.origin[tx])]
    ensures s'.store == s.store && s'.origin == s.origin && s'.ledger == s.ledger && s'.table == s.table
    ensures s'.conns == s.conns[c := DeletingContext(tx, s.store[tx].sessionId, EnergyWh(meterStop, s.store[tx].meterStart), |s.log|)]
  {
    s' := Extend(es, s, StopGet(c, tx, meterStop));
    es' := es + [StopGet(c, tx, meterStop)];
  }

  /** Connections 1 and 2 have both read the context of "T", and neither has deleted it. */
  lemma TwoReads() returns (es: seq<Step>, s: System)
    ensures NonNegativeStarts(es) && Exec(es) == s
    ensures s.log == [Started("T", Context(1, 0)), Consumed("T", 500, 0), Consumed("T", 500, 0)]
    ensures s.ledger == [] && "T" in s.table.rows && s.table.rows["T"].id == 1
    ensures 1 in s.conns && s.conns[1].DeletingContext? && s.conns[1].sessionId == 1
    ensures 2 in s.conns && s.conns[2].DeletingContext? && s.conns[2].sessionId == 1
  {
    var es4, s4 := StartedT();
    var es5, s5 := ReadOne(es4, s4, 1, "T", 500);
    assert s5.conns[1].sessionId == 1;
    es, s := ReadOne(es5, s5, 2, "T", 500);
    assert s.conns[1] == s5.conns[1] && s.conns[2].sessionId == 1;
  }

  /** Both go on to bill it. */
  lemma TwoBills() returns (es: seq<Step>, s: System)
    ensures NonNegativeStarts(es) && Exec(es) == s
    ensures s.log == [Started("T", Context(1, 0)), Consumed("T", 500, 0), Consumed("T", 500, 0)]
    ensures |s.ledger| == 2 && s.ledger[0].bill.sessionId == s.ledger[1].bill.sessionId == 1
    ensures "T" in s.table.rows && s.table.rows["T"].id == 1
  {
    var es6, s6 := TwoReads();
    var es7, s7 := BillOne(es6, s6, 1);
    assert s7.ledger[0].bill.sessionId == 1 && s7.conns[2] == s6.conns[2];
    es, s := BillOne(es7, s7, 2);
    assert s.ledger[..1] == s7.ledger;
    assert s.ledger[0] == s.ledger[..1][0];
  }

  /** One Start, then two connections that both read the context before either deletes it: two billing rows. */
  lemma OverlapBillsTwice() returns (es: seq<Step>)
    ensures NonNegativeStarts(es) && OverlapIn(es)
    ensures var s := Exec(es);
            "T" in s.table.rows && |RowsOf(s.ledger, s.table.rows["T"].id)| > |StartsOf(s.log, "T")|
  {
    var s;
    es, s := TwoBills();
    TwoRows(s);
    ConsumedTwiceIff(es);
  }

  lemma TwoRows(s: System)
    requires |s.ledger| == 2 && s.ledger[0].bill.sessionId == s.ledger[1].bill.sessionId == 1
    requires s.log == [Started("T", Context(1, 0)), Consumed("T", 500, 0), Consumed("T", 500, 0)]
    ensures |RowsOf(s.ledger, 1)| == 2 && |StartsOf(s.log, "T")| == 1 && ConsumedTwice(s.log)
  {
    assert RowsOf(s.ledger, 1) == {0, 1};
    assert StartsOf(s.log, "T") == {0};
    assert s.log[1].Consumed? && s.log[2].Consumed?;
  }

  /** A handler that holds a context deletes it and tells the sessions service. */
  lemma ConsumeOne(es: seq<Step>, s: System, c: ConnId) returns (es': seq<Step>, s': System)
    requires NonNegativeStarts(es) && Exec(es) == s && c in s.conns && s.conns[c].DeletingContext? && s.conns[c].sessionId > 0
    ensures NonNegativeStarts(es') && Exec(es') == s'
    ensures var pc := s.conns[c]; s'.conns == s.conns[c := PostingBill(pc.tx, pc.sessionId, pc.energyWh, pc.stop)]
    ensures s'.log == s.log && s'.table == s.table && s'.ledger == s.ledger
  {
    var s1 := Extend(es, s, StopDelete(c));
    var es1 := es + [StopDelete(c)];
    s' := Extend(es1, s1, PostStop(c));
    es' := es1 + [PostStop(c)];
  }

  /** A handler that has a bill to post posts it, and billing records it. */
  lemma RecordOne(es: seq<Step>, s: System, c: ConnId) returns (es': seq<Step>, s': System)
    requires NonNegativeStarts(es) && Exec(es) == s && c in s.conns && s.conns[c].PostingBill? && s.conns[c].sessionId > 0
    ensures NonNegativeStarts(es') && Exec(es') == s'
    ensures s'.log == s.log && s'.table == s.table && s'.conns == s.conns[c := Idle]
    ensures |s'.ledger| == |s.ledger| + 1 && s'.ledger[..|s.ledger|] == s.ledger
    ensures s'.ledger[|s.ledger|].bill.sessionId == s.conns[c].sessionId
  {
    var pc, k := s.conns[c], s.nextCall;
    var s1 := Extend(es, s, PostBill(c));
    var es1 := es + [PostBill(c)];
    assert s1.net[k] == BillRequest(pc.sessionId, pc.energyWh, pc.stop);
    s' := Extend(es1, s1, ServeBill(k, QueryFails, 7.0, true));
    es' := es1 + [ServeBill(k, QueryFails, 7.0, true)];
  }

  lemma BillOne(es: seq<Step>, s: System, c: ConnId) returns (es': seq<Step>, s': System)
    requires NonNegativeStarts(es) && Exec(es) == s && c in s.conns && s.conns[c].DeletingContext? && s.conns[c].sessionId > 0
    ensures NonNegativeStarts(es') && Exec(es') == s'
    ensures s'.log == s.log && s'.table == s.table && s'.conns == s.conns[c := Idle]
    ensures |s'.ledger| == |s.ledger| + 1 && s'.ledger[..|s.ledger|] == s.ledger
    ensures s'.ledger[|s.ledger|].bill.sessionId == s.conns[c].sessionId
  {
    var es1, s1 := ConsumeOne(es, s, c);
    es', s' := RecordOne(es1, s1, c);
  }
}
