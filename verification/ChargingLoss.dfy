/**
 * Contexts that leave the transaction store before any Stop has read them, so that their Start is never billed: exactly
 * when that happens, over every run of the charging protocol.
 */
module ChargingLoss {
  import opened Charging
  import opened ChargingLedger

  /** The context of the Start at log position o is the one stored for its transaction. */
  ghost predicate Stored(s: System, o: nat) {
    o < |s.log| && s.log[o].Started? && s.log[o].tx in s.origin && s.origin[s.log[o].tx] == o
  }

  ghost predicate Unread(log: seq<Event>, o: nat) {
    forall i :: 0 <= i < |log| && log[i].Consumed? ==> log[i].origin != o
  }

  /** The Start at log position o stored a context that is gone although no Stop ever read it. */
  ghost predicate LostUnread(s: System, o: nat) {
    o < |s.log| && s.log[o].Started? && !Stored(s, o) && Unread(s.log, o)
  }

  /** The label takes whatever is stored for tx out of the store: a restart, a newer Start's Set, or a Stop's Delete. */
  ghost predicate Removes(s: System, e: Step, tx: Tx) {
    || e.Restart?
    || (e.StoreSet? && PcOf(s, e.conn).StoringContext? && PcOf(s, e.conn).tx == tx)
    || (e.StopDelete? && PcOf(s, e.conn).DeletingContext? && PcOf(s, e.conn).tx == tx)
  }

  /** The label removes the stored context of the Start at o, which no Stop has read. */
  ghost predicate Loses(s: System, e: Step, o: nat) {
    Stored(s, o) && Unread(s.log, o) && Removes(s, e, s.log[o].tx)
  }

  lemma OriginKept(s: System, e: Step)
    requires !e.Restart? && !e.StoreSet? && !e.StopDelete?
    ensures Next(s, e).origin == s.origin
  {
    if OfService(e) {
      ServiceKeepsServer(s, e);
    }
  }

  lemma StoredAfter(s: System, e: Step, o: nat)
    requires o < |s.log| && s.log[o].Started?
    ensures o < |Next(s, e).log| && Next(s, e).log[o] == s.log[o]
    ensures Stored(Next(s, e), o) <==> Stored(s, o) && !Removes(s, e, s.log[o].tx)
  {
    LogOnlyGrows(s, e);
    match e
    case Restart =>
    case StoreSet(_) =>
    case StopDelete(_) =>
    case _ => OriginKept(s, e);
  }

  /** A log that grows by one leaves o unread unless the new event reads it. */
  lemma UnreadGrows(log: seq<Event>, log': seq<Event>, o: nat)
    requires log <= log' && |log'| <= |log| + 1
    ensures Unread(log', o) <==> Unread(log, o) && !(|log| < |log'| && log'[|log|].Consumed? && log'[|log|].origin == o)
  {
    if Unread(log', o) {
      forall i | 0 <= i < |log| && log[i].Consumed? ensures log[i].origin != o {
        assert log'[i] == log[i];
      }
    }
  }

  /** A Stop reads the context of o only while it is stored. */
  lemma UnreadAfter(s: System, e: Step, o: nat)
    requires Logged(s) && o < |s.log| && s.log[o].Started?
    ensures Unread(Next(s, e).log, o) ==> Unread(s.log, o)
    ensures Unread(s.log, o) && !Unread(Next(s, e).log, o) ==> Stored(s, o) && e.StopGet?
  {
    LogOnlyGrows(s, e);
    UnreadGrows(s.log, Next(s, e).log, o);
    if Unread(s.log, o) && !Unread(Next(s, e).log, o) {
      assert LatestStart(s.log, s.origin[e.tx], |s.log|, e.tx);
    }
  }

  lemma LostStepIff(s: System, e: Step, s': System, o: nat)
    requires Logged(s) && s' == Next(s, e)
    ensures LostUnread(s', o) <==> LostUnread(s, o) || Loses(s, e, o)
  {
    if o < |s.log| && s.log[o].Started? {
      StoredAfter(s, e, o);
      UnreadAfter(s, e, o);
    } else if LostUnread(s', o) {
      LogOnlyGrows(s, e);
      assert o >= |s.log|;
      NewStartIsStored(s, e, o);
    }
  }

  lemma NewStartIsStored(s: System, e: Step, o: nat)
    requires o >= |s.log| && o < |Next(s, e).log| && Next(s, e).log[o].Started?
    ensures Stored(Next(s, e), o)
  {
    LogOnlyGrows(s, e);
    NewStart(s, e);
  }

  ghost predicate LosesIn(es: seq<Step>, o: nat) {
    exists k :: 0 <= k < |es| && Loses(Before(es, k), es[k], o)
  }

  lemma LosesExtends(es: seq<Step>, e: Step, o: nat)
    ensures LosesIn(es + [e], o) <==> LosesIn(es, o) || Loses(Exec(es), e, o)
  {
    var fs := es + [e];
    assert fs[..|es|] == es;
    forall k | 0 <= k < |es| ensures Before(fs, k) == Before(es, k) {
      assert fs[..k] == es[..k];
    }
    if LosesIn(es, o) {
      var k :| 0 <= k < |es| && Loses(Before(es, k), es[k], o);
      assert Loses(Before(fs, k), fs[k], o);
    }
    if Loses(Exec(es), e, o) {
      assert Loses(Before(fs, |es|), fs[|es|], o);
    }
  }

  /**
   * For every run and every Start handled in it: the Start's context has left the store unread if and only if, at some
   * label, it was stored and unread and a restart, a newer Start of the transaction, or a Stop's Delete came.
   */
  lemma {:induction false} LostUnreadIff(es: seq<Step>, o: nat)
    ensures LostUnread(Exec(es), o) <==> LosesIn(es, o)
  {
    if es != [] {
      var p, e := es[..|es| - 1], es[|es| - 1];
      assert es == p + [e];
      LostUnreadIff(p, o);
      LosesExtends(p, e, o);
      var place := RunKeeps(p);
      LostStepIff(Exec(p), e, Exec(es), o);
    }
  }

  /** The deleting Stop had read the same transaction's context before the Start at o was stored. */
  ghost predicate ReadEarlier(log: seq<Event>, pc: Pc, o: nat)
    requires o < |log|
  {
    && pc.DeletingContext? && pc.stop < |log|
    && log[pc.stop].Consumed? && log[pc.stop].tx == log[o].tx && log[pc.stop].origin < pc.stop < o
  }

  lemma DeleterReadEarlier(s: System, c: ConnId, o: nat, place: map<nat, Place>)
    requires Logged(s) && c in s.conns && s.conns[c].DeletingContext? && ConnPlaced(s, place, c)
    requires Stored(s, o) && Unread(s.log, o) && s.conns[c].tx == s.log[o].tx
    ensures ReadEarlier(s.log, s.conns[c], o)
  {
    var stop := s.conns[c].stop;
    assert s.log[stop].Consumed? && s.log[stop].tx == s.conns[c].tx && s.log[stop].origin != o;
    assert LatestStart(s.log, s.log[stop].origin, stop, s.log[stop].tx);
    assert LatestStart(s.log, o, |s.log|, s.log[o].tx);
  }

  /** A Delete that loses a context belongs to a Stop that had read an older Start's: the lost one was stored after that read. */
  lemma DeleteLosesNewerStart(es: seq<Step>, c: ConnId, o: nat)
    requires Loses(Exec(es), StopDelete(c), o)
    ensures ReadEarlier(Exec(es).log, PcOf(Exec(es), c), o)
  {
    var place := RunKeeps(es);
    assert ConnPlaced(Exec(es), place, c);
    DeleterReadEarlier(Exec(es), c, o, place);
  }

  /** A Start whose context was ever lost unread is never billed, however the run goes on. */
  lemma LostStartsAreNeverBilled(es: seq<Step>, o: nat)
    requires LosesIn(es, o)
    ensures !Billed(Exec(es), o)
  {
    LostUnreadIff(es, o);
    RowsPaidFromLatestStart(es);
    var s := Exec(es);
    forall n | 0 <= n < |s.ledger| ensures !BilledBy(s, n, o) {
      assert PaidFromLatestStart(s.log, s.ledger[n]);
    }
  }

  /** Ledger row n bills a Stop that read the context of the Start at o. */
  ghost predicate BilledBy(s: System, n: nat, o: nat)
    requires n < |s.ledger|
  {
    var stop := s.ledger[n].stop;
    stop < |s.log| && s.log[stop].Consumed? && s.log[stop].origin == o
  }

  ghost predicate Billed(s: System, o: nat) {
    exists n :: 0 <= n < |s.ledger| && BilledBy(s, n, o)
  }
}
