/**
 * The charging_sessions table as the two SQL statements of
 * backend/services/sessions-service/internal/repository/session_repo.go see it.
 */
module SessionTable {

  datatype Status = Active | Completed

  datatype Row = Row(id: int, station: string, connector: int, status: Status, energyWh: int)

  /** Rows by transaction_id (UNIQUE), and the next value of the BIGSERIAL sequence. */
  datatype Table = Table(rows: map<string, Row>, nextId: int)

  function Empty(): Table { Table(map[], 1) }

  /** INSERT ... ON CONFLICT (transaction_id) DO UPDATE: the sequence advances either way, the old id and energy stay. */
  function Upsert(t: Table, tx: string, station: string, connector: int): (r: Table) {
    var row := if tx in t.rows
               then t.rows[tx].(station := station, connector := connector, status := Active)
               else Row(t.nextId, station, connector, Active, 0);
    Table(t.rows[tx := row], t.nextId + 1)
  }

  /** UPDATE ... WHERE transaction_id = tx: no row, no change. */
  function Complete(t: Table, tx: string, energyWh: int): (r: Table) {
    if tx in t.rows
    then t.(rows := t.rows[tx := t.rows[tx].(status := Completed, energyWh := energyWh)])
    else t
  }

  /** Ids are positive, below the sequence, and no two transactions share one. */
  ghost predicate Wf(t: Table) {
    && 1 <= t.nextId
    && (forall x :: x in t.rows ==> 1 <= t.rows[x].id < t.nextId)
    && (forall x, y :: x in t.rows && y in t.rows && t.rows[x].id == t.rows[y].id ==> x == y)
  }

  /** No row disappears and no id changes. */
  ghost predicate KeepsIds(t: Table, t': Table) {
    forall x :: x in t.rows ==> x in t'.rows && t'.rows[x].id == t.rows[x].id
  }

  /** A session id an OCPP handler holds for tx is 0 (unknown) or the id of tx's row. */
  ghost predicate Names(t: Table, tx: string, sessionId: int) {
    sessionId != 0 ==> tx in t.rows && t.rows[tx].id == sessionId
  }

  lemma UpsertKeeps(t: Table, tx: string, station: string, connector: int)
    requires Wf(t)
    ensures var t' := Upsert(t, tx, station, connector);
            Wf(t') && KeepsIds(t, t') && tx in t'.rows && t'.rows[tx].status == Active && Names(t', tx, t'.rows[tx].id)
  {
  }

  lemma CompleteKeeps(t: Table, tx: string, energyWh: int)
    requires Wf(t)
    ensures var t' := Complete(t, tx, energyWh); Wf(t') && KeepsIds(t, t') && t'.rows.Keys == t.rows.Keys
  {
  }

  // ----- A table after any statements -----

  datatype Statement = Insert(tx: string, station: string, connector: int) | Finish(tx: string, energyWh: int)

  function After(t: Table, st: Statement): Table {
    match st
    case Insert(tx, station, connector) => Upsert(t, tx, station, connector)
    case Finish(tx, energyWh) => Complete(t, tx, energyWh)
  }

  function TableOf(sts: seq<Statement>): Table {
    if sts == [] then Empty() else After(TableOf(sts[..|sts| - 1]), sts[|sts| - 1])
  }

  lemma TableSnoc(sts: seq<Statement>, st: Statement)
    ensures TableOf(sts + [st]) == After(TableOf(sts), st)
  {
    assert (sts + [st])[..|sts|] == sts;
  }

  predicate Inserts(st: Statement, tx: string) { st.Insert? && st.tx == tx }

  predicate Finishes(st: Statement, tx: string) { st.Finish? && st.tx == tx }

  /** Statement i is the last insert of tx. */
  ghost predicate LastInsert(sts: seq<Statement>, i: nat, tx: string) {
    i < |sts| && Inserts(sts[i], tx) && forall j :: i < j < |sts| ==> !Inserts(sts[j], tx)
  }

  ghost predicate FirstInsert(sts: seq<Statement>, i: nat, tx: string) {
    i < |sts| && Inserts(sts[i], tx) && forall j :: 0 <= j < i ==> !Inserts(sts[j], tx)
  }

  ghost predicate LastFinish(sts: seq<Statement>, i: nat, tx: string) {
    i < |sts| && Finishes(sts[i], tx) && forall j :: i < j < |sts| ==> !Finishes(sts[j], tx)
  }

  function InsertCount(sts: seq<Statement>): (n: nat) {
    if sts == [] then 0 else InsertCount(sts[..|sts| - 1]) + if sts[|sts| - 1].Insert? then 1 else 0
  }

  /** There is a row exactly for the transactions inserted, and the sequence has given out one id per insert. */
  lemma {:induction false} RowIffInserted(sts: seq<Statement>, tx: string)
    ensures TableOf(sts).nextId == 1 + InsertCount(sts)
    ensures tx in TableOf(sts).rows <==> exists i :: 0 <= i < |sts| && Inserts(sts[i], tx)
  {
    if sts != [] {
      var p := sts[..|sts| - 1];
      RowIffInserted(p, tx);
      if i :| 0 <= i < |p| && Inserts(p[i], tx) {
        assert sts[i] == p[i];
      }
      if i :| 0 <= i < |sts| && Inserts(sts[i], tx) {
        assert i < |p| ==> p[i] == sts[i];
        if i == |p| {
          assert Inserts(sts[|sts| - 1], tx);
        }
      }
    }
  }

  /**
   * The last insert gives a row its station and connector, and it is active exactly when no finish followed that insert.
   */
  lemma {:induction false} LastInsertShows(sts: seq<Statement>, i: nat, tx: string)
    requires LastInsert(sts, i, tx)
    ensures var t := TableOf(sts);
            && tx in t.rows && t.rows[tx].station == sts[i].station && t.rows[tx].connector == sts[i].connector
            && (t.rows[tx].status == Active <==> forall j :: i < j < |sts| ==> !Finishes(sts[j], tx))
  {
    var n := |sts| - 1;
    var p := sts[..n];
    if i < n {
      assert LastInsert(p, i, tx);
      LastInsertShows(p, i, tx);
      assert forall j :: i < j < n ==> p[j] == sts[j];
      assert (forall j :: i < j < |sts| ==> !Finishes(sts[j], tx)) <==>
             (forall j :: i < j < n ==> !Finishes(p[j], tx)) && !Finishes(sts[n], tx);
    }
  }

  /** A row's id is the sequence's value at the first insert of its transaction. */
  lemma {:induction false} FirstInsertNames(sts: seq<Statement>, i: nat, tx: string)
    requires FirstInsert(sts, i, tx)
    ensures tx in TableOf(sts).rows && TableOf(sts).rows[tx].id == 1 + InsertCount(sts[..i])
  {
    var n := |sts| - 1;
    var p := sts[..n];
    if i < n {
      assert FirstInsert(p, i, tx);
      FirstInsertNames(p, i, tx);
      assert p[..i] == sts[..i];
    } else {
      RowIffInserted(p, tx);
      assert forall j :: 0 <= j < n ==> p[j] == sts[j];
    }
  }

  /** Its energy is that of the last finish after the first insert, and 0 when there is none. */
  lemma {:induction false} LastFinishShows(sts: seq<Statement>, first: nat, tx: string)
    requires FirstInsert(sts, first, tx)
    ensures tx in TableOf(sts).rows
    ensures forall i :: first < i && LastFinish(sts, i, tx) ==> TableOf(sts).rows[tx].energyWh == sts[i].energyWh
    ensures (forall j :: first < j < |sts| ==> !Finishes(sts[j], tx)) ==> TableOf(sts).rows[tx].energyWh == 0
  {
    var n := |sts| - 1;
    var p := sts[..n];
    if first < n {
      assert FirstInsert(p, first, tx);
      LastFinishShows(p, first, tx);
      assert forall j :: 0 <= j < n ==> p[j] == sts[j];
      forall i | first < i && LastFinish(sts, i, tx) ensures TableOf(sts).rows[tx].energyWh == sts[i].energyWh {
        if i < n {
          assert LastFinish(p, i, tx);
        }
      }
    } else {
      RowIffInserted(p, tx);
      assert forall j :: 0 <= j < n ==> p[j] == sts[j];
    }
  }
}
