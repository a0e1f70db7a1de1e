/**
 * The requests of the charging protocol: each is served at most once, what the sessions table holds is what the served ones
 * made it, and a restart loses the memory of the ocpp-server and nothing else.
 */
module ChargingCalls {
  import opened Charging
  import opened SessionTable
  import ChargingIdentity

  // ----- At most once -----

  /** The label serves the call: it is in flight, and of the label's kind. */
  predicate Serves(s: System, e: Step) {
    OfService(e) && e.call in s.net &&
    match e
    case ServeStart(k, _) => s.net[k].StartRequest?
    case ServeStop(k, _) => s.net[k].StopRequest?
    case ServeBill(k, _, _, _) => s.net[k].BillRequest?
    case ServeMeter(k, _) => s.net[k].MeterRequest?
  }

  /** Call k was posted and is no longer in flight. */
  predicate Gone(s: System, k: nat) { k < s.nextCall && k !in s.net }

  lemma ServedIsGone(s: System, e: Step)
    requires ChargingIdentity.Identified(s) && Serves(s, e)
    ensures Gone(Next(s, e), e.call)
  {
    match e
    case ServeStart(k, dbOk) => ServedStartIsGone(s, k, dbOk);
    case _ =>
  }

  lemma ServedStartIsGone(s: System, k: nat, dbOk: bool)
    requires k in s.net && s.net[k].StartRequest?
    ensures k !in OnServeStart(s, k, dbOk).net && OnServeStart(s, k, dbOk).nextCall == s.nextCall
  {
  }

  lemma ServiceKeepsGone(s: System, e: Step, k: nat)
    requires OfService(e) && Gone(s, k)
    ensures Gone(Next(s, e), k)
  {
    match e
    case ServeStart(c, dbOk) => assert OnServeStart(s, c, dbOk).nextCall == s.nextCall && k !in OnServeStart(s, c, dbOk).net;
    case _ =>
  }

  lemma HandlerKeepsGone(s: System, e: Step, k: nat)
    requires !OfService(e) && Gone(s, k)
    ensures Gone(Next(s, e), k)
  {
  }

  lemma {:induction false} StaysGone(es: seq<Step>, i: nat, k: nat)
    requires i <= |es| && Gone(Before(es, i), k)
    ensures Gone(Exec(es), k)
    decreases |es| - i
  {
    if i == |es| {
      assert es[..i] == es;
    } else {
      BeforeNext(es, i);
      if OfService(es[i]) {
        ServiceKeepsGone(Before(es, i), es[i], k);
      } else {
        HandlerKeepsGone(Before(es, i), es[i], k);
      }
      StaysGone(es, i + 1, k);
    }
  }

  lemma BeforeNext(es: seq<Step>, i: nat)
    requires i < |es|
    ensures Before(es, i + 1) == Next(Before(es, i), es[i])
  {
    assert es[..i + 1][..i] == es[..i];
  }

  /** In every run no posted request is served by two labels. */
  lemma ServedAtMostOnce(es: seq<Step>, i: nat, j: nat)
    requires i < j < |es| && Serves(Before(es, i), es[i]) && OfService(es[j]) && es[j].call == es[i].call
    ensures !Serves(Before(es, j), es[j])
  {
    ChargingIdentity.RunIdentified(es[..i]);
    ServedIsGone(Before(es, i), es[i]);
    BeforeNext(es, i);
    assert es[..j][..i + 1] == es[..i + 1];
    StaysGone(es[..j], i + 1, es[i].call);
  }

  // ----- The sessions table -----

  /** The statement a label makes take effect, if any; the service refuses requests without a transaction id. */
  function Made(s: System, e: Step): (sts: seq<Statement>) {
    if !Serves(s, e) then []
    else
      var r := s.net[e.call];
      match e
      case ServeStart(_, dbOk) => if dbOk && r.tx != "" then [Insert(r.tx, r.station, r.connector)] else []
      case ServeStop(_, dbOk) => if dbOk && r.tx != "" then [Finish(r.tx, r.energyWh)] else []
      case _ => []
  }

  function AllMade(es: seq<Step>): (sts: seq<Statement>) {
    if es == [] then [] else AllMade(es[..|es| - 1]) + Made(Exec(es[..|es| - 1]), es[|es| - 1])
  }

  lemma HandlersMakeNothing(s: System, e: Step)
    requires !OfService(e)
    ensures Next(s, e).table == s.table
  {
  }

  lemma StepMakes(s: System, e: Step, sts: seq<Statement>)
    requires s.table == TableOf(sts)
    ensures Next(s, e).table == TableOf(sts + Made(s, e))
  {
    assert sts + [] == sts;
    if Made(s, e) != [] {
      TableSnoc(sts, Made(s, e)[0]);
    }
    match e
    case ServeStart(k, dbOk) => StartMakes(s, k, dbOk);
    case ServeStop(k, dbOk) => StopMakes(s, k, dbOk);
    case ServeBill(_, _, _, _) =>
    case ServeMeter(_, _) =>
    case _ => HandlersMakeNothing(s, e);
  }

  lemma StartMakes(s: System, k: nat, dbOk: bool)
    ensures OnServeStart(s, k, dbOk).table ==
            if k in s.net && s.net[k].StartRequest? && dbOk && s.net[k].tx != ""
            then After(s.table, Insert(s.net[k].tx, s.net[k].station, s.net[k].connector)) else s.table
  {
  }

  lemma StopMakes(s: System, k: nat, dbOk: bool)
    ensures OnServeStop(s, k, dbOk).table ==
            if k in s.net && s.net[k].StopRequest? && dbOk && s.net[k].tx != ""
            then After(s.table, Finish(s.net[k].tx, s.net[k].energyWh)) else s.table
  {
  }

  /** In every run the sessions table is what the served requests, in order, make of an empty one. */
  lemma {:induction false} TableIsServed(es: seq<Step>)
    ensures Exec(es).table == TableOf(AllMade(es))
  {
    if es != [] {
      TableIsServed(es[..|es| - 1]);
      StepMakes(Exec(es[..|es| - 1]), es[|es| - 1], AllMade(es[..|es| - 1]));
    }
  }

  // ----- Restart -----

  /** A restart empties the transaction store and ends every handler; the services and what is in flight are untouched. */
  lemma RestartLosesOnlyMemory(s: System, c: ConnId)
    ensures var s' := Next(s, Restart);
            && s'.store == map[] && PcOf(s', c) == Idle
            && s'.table == s.table && s'.ledger == s.ledger && s'.readings == s.readings
            && s'.net == s.net && s'.replies == s.replies && s'.nextCall == s.nextCall
  {
  }
}
