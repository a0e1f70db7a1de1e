/**
 * Which tariff each ledger row of the charging protocol charges: the one in force at the very label that served it, over
 * every run in which tariffs come and go.
 */
module ChargingTariff {
  import opened Billing
  import opened Charging
  import opened Options

  /** Label k served a bill under this tariff and the insert went through. */
  ghost predicate ServedAt(es: seq<Step>, k: nat, bill: Bill) {
    && k < |es| && es[k].ServeBill? && es[k].dbOk
    && bill.sessionId != 0 && Usable(es[k].source, es[k].defaultPrice)
    && Charges(bill, es[k].source, es[k].defaultPrice)
  }

  ghost predicate AllServed(es: seq<Step>, s: System) {
    && s.clock == |es|
    && (forall n :: 0 <= n < |s.ledger| ==> ServedAt(es, s.ledger[n].at, s.ledger[n].bill))
    && (forall m, n :: 0 <= m < n < |s.ledger| ==> s.ledger[m].at < s.ledger[n].at)
  }

  /** The label records a row: billing serves a bill in flight, has a tariff to charge, and the insert goes through. */
  ghost predicate Records(s: System, e: Step) {
    && e.ServeBill? && e.call in s.net && s.net[e.call].BillRequest? && s.net[e.call].sessionId != 0
    && Usable(e.source, e.defaultPrice) && e.dbOk
  }

  lemma OthersRecordNothing(s: System, e: Step)
    requires !e.ServeBill?
    ensures Next(s, e).ledger == s.ledger
  {
    match e
    case ServeStart(k, dbOk) => ServeStartRecordsNothing(s, k, dbOk);
    case ServeStop(k, dbOk) =>
    case ServeMeter(k, dbOk) =>
    case _ => HandlersRecordNothing(s, e);
  }

  lemma ServeStartRecordsNothing(s: System, k: nat, dbOk: bool)
    ensures OnServeStart(s, k, dbOk).ledger == s.ledger
  {
  }

  lemma HandlersRecordNothing(s: System, e: Step)
    requires !OfService(e)
    ensures Next(s, e).ledger == s.ledger
  {
  }

  /** Row `row` is what serving request r at run position `at` under this tariff adds to the ledger. */
  ghost predicate RowFor(row: Entry, r: Request, at: nat, source: TariffSource, defaultPrice: real)
    requires r.BillRequest?
  {
    && row.bill.sessionId == r.sessionId && row.bill.energyWh == r.energyWh && row.stop == r.stop && row.at == at
    && Charges(row.bill, source, defaultPrice)
  }

  lemma BillRecordsIff(s: System, k: nat, source: TariffSource, defaultPrice: real, dbOk: bool)
    requires k in s.net && s.net[k].BillRequest?
    ensures var ledger', r := OnServeBill(s, k, source, defaultPrice, dbOk).ledger, s.net[k];
            if r.sessionId != 0 && Usable(source, defaultPrice) && dbOk
            then |ledger'| == |s.ledger| + 1 && ledger'[..|s.ledger|] == s.ledger && RowFor(ledger'[|s.ledger|], r, s.clock, source, defaultPrice)
            else ledger' == s.ledger
  {
    MakeBillSound(s.net[k].sessionId, s.net[k].energyWh, source, defaultPrice);
  }

  /** A step adds a row if and only if it records one, for the call it serves and under its own tariff. */
  lemma RecordsIff(s: System, e: Step)
    ensures !Records(s, e) ==> Next(s, e).ledger == s.ledger
    ensures Next(s, e).clock == s.clock + 1
    ensures Records(s, e) ==>
              var ledger' := Next(s, e).ledger;
              && |ledger'| == |s.ledger| + 1 && ledger'[..|s.ledger|] == s.ledger
              && RowFor(ledger'[|s.ledger|], s.net[e.call], s.clock, e.source, e.defaultPrice)
  {
    if e.ServeBill? {
      if e.call in s.net && s.net[e.call].BillRequest? {
        BillRecordsIff(s, e.call, e.source, e.defaultPrice, e.dbOk);
      }
    } else {
      OthersRecordNothing(s, e);
    }
  }

  lemma ServedExtends(es: seq<Step>, e: Step, k: nat, bill: Bill)
    requires ServedAt(es, k, bill)
    ensures ServedAt(es + [e], k, bill)
  {
  }

  lemma StepServed(es: seq<Step>, s: System, e: Step, s': System)
    requires AllServed(es, s) && s' == Next(s, e)
    ensures AllServed(es + [e], s')
  {
    RecordsIff(s, e);
    assert s'.clock == s.clock + 1;
    forall n | 0 <= n < |s'.ledger| ensures ServedAt(es + [e], s'.ledger[n].at, s'.ledger[n].bill) {
      if n < |s.ledger| {
        assert s'.ledger[n] == s.ledger[n];
        ServedExtends(es, e, s.ledger[n].at, s.ledger[n].bill);
      }
    }
    RowsInOrder(es, s, s');
  }

  /**
   * For every run: the label at the position a ledger row carries is a ServeBill whose insert went through, the row charges
   * the tariff that label found, and rows stand in the order of their labels, one to a label.
   */
  lemma {:induction false} RowsChargeTheTariffInForce(es: seq<Step>)
    ensures AllServed(es, Exec(es))
  {
    if es != [] {
      var p, e := es[..|es| - 1], es[|es| - 1];
      assert es == p + [e];
      RowsChargeTheTariffInForce(p);
      StepServed(p, Exec(p), e, Exec(es));
    }
  }

  lemma RowsInOrder(es: seq<Step>, s: System, s': System)
    requires AllServed(es, s)
    requires s'.ledger == s.ledger ||
             (|s'.ledger| == |s.ledger| + 1 && s'.ledger[..|s.ledger|] == s.ledger && s'.ledger[|s.ledger|].at == s.clock)
    ensures forall m, n :: 0 <= m < n < |s'.ledger| ==> s'.ledger[m].at < s'.ledger[n].at
  {
    forall m, n | 0 <= m < n < |s'.ledger| ensures s'.ledger[m].at < s'.ledger[n].at {
      assert s'.ledger[m] == s.ledger[m];
      assert ServedAt(es, s.ledger[m].at, s.ledger[m].bill);
      assert n < |s.ledger| ==> s'.ledger[n] == s.ledger[n];
    }
  }
}
