/**
 * The sessions service: each request changes the charging_sessions table and then the active-session cache
 * (backend/services/sessions-service/internal/service/sessions_service.go). Requests interleave between the two
 * operations; cache entries expire; table and cache operations can fail, and a statement can commit although the service
 * sees an error.
 */
module SessionCache {
  import opened SessionTable

  /** Fate of a statement: done, not done, or committed while the service sees an error and stops there. */
  datatype Sql = Succeeds | Fails | CommitsUnseen

  /** A request between its SQL statement and its cache operation. */
  datatype Pending = Saving(tx: string, id: int) | Deleting(tx: string)

  datatype State = State(table: Table, cache: map<string, int>, pending: map<nat, Pending>)

  datatype Step =
    | StartSql(req: nat, tx: string, station: string, connector: int, sql: Sql)
    | SaveCache(req: nat, ok: bool)
    | StopSql(req: nat, tx: string, energyWh: int, sql: Sql)
    | DeleteCache(req: nat, ok: bool)
    | Expire(tx: string)

  function Init(): State { State(Empty(), map[], map[]) }

  /** A label that is not enabled leaves the state unchanged. */
  function Next(s: State, e: Step): State {
    match e
    case StartSql(r, tx, station, connector, sql) =>
      if r in s.pending || sql.Fails? then s
      else
        var table := Upsert(s.table, tx, station, connector);
        if sql.CommitsUnseen? then s.(table := table)
        else s.(table := table, pending := s.pending[r := Saving(tx, table.rows[tx].id)])
    case SaveCache(r, ok) =>
      if r in s.pending && s.pending[r].Saving? then
        s.(pending := s.pending - {r},
           cache := if ok then s.cache[s.pending[r].tx := s.pending[r].id] else s.cache)
      else s
    case StopSql(r, tx, energyWh, sql) =>
      if r in s.pending || sql.Fails? || tx !in s.table.rows then s
      else
        var table := Complete(s.table, tx, energyWh);
        if sql.CommitsUnseen? then s.(table := table)
        else s.(table := table, pending := s.pending[r := Deleting(tx)])
    case DeleteCache(r, ok) =>
      if r in s.pending && s.pending[r].Deleting? then
        s.(pending := s.pending - {r}, cache := if ok then s.cache - {s.pending[r].tx} else s.cache)
      else s
    case Expire(tx) => s.(cache := s.cache - {tx})
  }

  function Exec(es: seq<Step>): State {
    if es == [] then Init() else Next(Exec(es[..|es| - 1]), es[|es| - 1])
  }

  ghost predicate Busy(s: State, tx: string) {
    exists r :: r in s.pending && s.pending[r].tx == tx
  }

  ghost predicate IsActive(t: Table, tx: string) {
    tx in t.rows && t.rows[tx].status == Active
  }

  // ----- A cached id is always its row's id -----

  ghost predicate IdsAgree(s: State) {
    && Wf(s.table)
    && (forall tx :: tx in s.cache ==> tx in s.table.rows && s.table.rows[tx].id == s.cache[tx])
    && (forall r :: r in s.pending && s.pending[r].Saving? ==>
          s.pending[r].tx in s.table.rows && s.table.rows[s.pending[r].tx].id == s.pending[r].id)
  }

  /** The table may change as long as it keeps its ids. */
  lemma TableIdsAgree(s: State, t: Table)
    requires IdsAgree(s) && Wf(t) && KeepsIds(s.table, t)
    ensures IdsAgree(s.(table := t))
  {
  }

  lemma CacheStepIdsAgree(s: State, e: Step)
    requires IdsAgree(s) && (e.SaveCache? || e.DeleteCache? || e.Expire?)
    ensures IdsAgree(Next(s, e))
  {
  }

  /** A request may begin as long as it saves its row's id. */
  lemma BeginIdsAgree(s: State, r: nat, p: Pending)
    requires IdsAgree(s) && (p.Saving? ==> p.tx in s.table.rows && s.table.rows[p.tx].id == p.id)
    ensures IdsAgree(s.(pending := s.pending[r := p]))
  {
  }

  lemma StartIdsAgree(s: State, r: nat, tx: string, station: string, connector: int, sql: Sql)
    requires IdsAgree(s)
    ensures IdsAgree(Next(s, StartSql(r, tx, station, connector, sql)))
  {
    var t := Upsert(s.table, tx, station, connector);
    UpsertKeeps(s.table, tx, station, connector);
    TableIdsAgree(s, t);
    BeginIdsAgree(s.(table := t), r, Saving(tx, t.rows[tx].id));
  }

  lemma StopIdsAgree(s: State, r: nat, tx: string, energyWh: int, sql: Sql)
    requires IdsAgree(s)
    ensures IdsAgree(Next(s, StopSql(r, tx, energyWh, sql)))
  {
    var t := Complete(s.table, tx, energyWh);
    CompleteKeeps(s.table, tx, energyWh);
    TableIdsAgree(s, t);
    BeginIdsAgree(s.(table := t), r, Deleting(tx));
  }

  lemma StepIdsAgree(s: State, e: Step)
    requires IdsAgree(s)
    ensures IdsAgree(Next(s, e))
  {
    match e
    case StartSql(r, tx, station, connector, sql) => StartIdsAgree(s, r, tx, station, connector, sql);
    case StopSql(r, tx, energyWh, sql) => StopIdsAgree(s, r, tx, energyWh, sql);
    case _ => CacheStepIdsAgree(s, e);
  }

  /** In every run, with any overlaps and any failures, a cached session id is the id of its transaction's row. */
  lemma {:induction false} CachedIdsAreRowIds(es: seq<Step>)
    ensures IdsAgree(Exec(es))
  {
    if es != [] {
      CachedIdsAreRowIds(es[..|es| - 1]);
      StepIdsAgree(Exec(es[..|es| - 1]), es[|es| - 1]);
    }
  }

  // ----- Exactly when a stale entry is left behind -----

  /** A cached session that is not active, with no request left that could correct it. */
  ghost predicate Stale(s: State, tx: string) {
    tx in s.cache && !IsActive(s.table, tx) && !Busy(s, tx)
  }

  /** The request r is the only one pending for tx. */
  ghost predicate OnlyPending(s: State, r: nat, tx: string) {
    r in s.pending && s.pending[r].tx == tx && forall q :: q in s.pending && s.pending[q].tx == tx ==> q == r
  }

  /**
   * The label leaves a stale entry of tx behind: either tx's only pending request ends while its row is not active, with a
   * save that succeeds or with a cache operation that fails although tx is cached; or, with no request pending, a Stop of
   * the cached tx commits unseen.
   */
  ghost predicate Spoils(s: State, e: Step, tx: string) {
    match e
    case SaveCache(r, ok) => OnlyPending(s, r, tx) && s.pending[r].Saving? && !IsActive(s.table, tx) && (ok || tx in s.cache)
    case DeleteCache(r, ok) => OnlyPending(s, r, tx) && s.pending[r].Deleting? && !IsActive(s.table, tx) && !ok && tx in s.cache
    case StopSql(r, t, _, sql) => t == tx && sql.CommitsUnseen? && r !in s.pending && tx in s.table.rows && tx in s.cache && !Busy(s, tx)
    case _ => false
  }

  /** Ending a request leaves tx idle exactly when it was idle or that request was its only one. */
  lemma BusyAfterEnd(s: State, s': State, r: nat, tx: string)
    requires r in s.pending && s'.pending == s.pending - {r}
    ensures Busy(s', tx) <==> Busy(s, tx) && !OnlyPending(s, r, tx)
  {
    if Busy(s, tx) && !OnlyPending(s, r, tx) {
      var q :| q in s.pending && s.pending[q].tx == tx && q != r;
      assert q in s'.pending;
    }
    if Busy(s', tx) {
      var q :| q in s'.pending && s'.pending[q].tx == tx;
      assert q in s.pending && q != r;
    }
  }

  /** Beginning a request makes its transaction busy and changes nothing about the others. */
  lemma BusyAfterBegin(s: State, s': State, r: nat, p: Pending, tx: string)
    requires r !in s.pending && s'.pending == s.pending[r := p]
    ensures Busy(s', tx) <==> Busy(s, tx) || tx == p.tx
  {
    assert s'.pending[r] == p;
    if Busy(s, tx) {
      var q :| q in s.pending && s.pending[q].tx == tx;
      assert s'.pending[q] == s.pending[q];
    }
  }

  lemma StartLeavesNothingStale(s: State, e: Step, tx: string)
    requires e.StartSql? && !Stale(s, tx)
    ensures !Stale(Next(s, e), tx)
  {
    var s' := Next(s, e);
    if s' != s && e.sql.Succeeds? {
      BusyAfterBegin(s, s', e.req, s'.pending[e.req], tx);
    }
  }

  lemma StopStaleIff(s: State, e: Step, tx: string)
    requires e.StopSql? && !Stale(s, tx)
    ensures Stale(Next(s, e), tx) <==> Spoils(s, e, tx)
  {
    if e.req !in s.pending && !e.sql.Fails? && e.tx in s.table.rows {
      if e.sql.Succeeds? {
        BusyAfterBegin(s, Next(s, e), e.req, Deleting(e.tx), tx);
      }
    }
  }

  lemma EndStaleIff(s: State, e: Step, tx: string)
    requires (e.SaveCache? || e.DeleteCache?) && !Stale(s, tx)
    ensures Stale(Next(s, e), tx) <==> Spoils(s, e, tx)
  {
    if e.req in s.pending && (if e.SaveCache? then s.pending[e.req].Saving? else s.pending[e.req].Deleting?) {
      BusyAfterEnd(s, Next(s, e), e.req, tx);
    }
  }

  /** A step makes an entry stale if and only if it spoils it. */
  lemma StaleStepIff(s: State, e: Step, tx: string)
    requires !Stale(s, tx)
    ensures Stale(Next(s, e), tx) <==> Spoils(s, e, tx)
  {
    match e
    case StartSql(_, _, _, _, _) => StartLeavesNothingStale(s, e, tx);
    case StopSql(_, _, _, _) => StopStaleIff(s, e, tx);
    case Expire(_) =>
    case _ => EndStaleIff(s, e, tx);
  }

  /** A label that spoils an entry always leaves it stale. */
  lemma SpoilingLeavesStale(s: State, e: Step, tx: string)
    requires Spoils(s, e, tx)
    ensures Stale(Next(s, e), tx)
  {
    if !Stale(s, tx) {
      StaleStepIff(s, e, tx);
    }
  }

  /** After k labels of the run tx has a stale entry. */
  ghost predicate StaleAt(es: seq<Step>, k: nat, tx: string)
    requires k <= |es|
  {
    Stale(Exec(es[..k]), tx)
  }

  /** Label k of the run spoils tx. */
  ghost predicate SpoiledAt(es: seq<Step>, k: nat, tx: string)
    requires k < |es|
  {
    Spoils(Exec(es[..k]), es[k], tx)
  }

  ghost predicate StaleAtSomePoint(es: seq<Step>, tx: string) {
    exists k :: 0 <= k <= |es| && StaleAt(es, k, tx)
  }

  ghost predicate SpoiledIn(es: seq<Step>, tx: string) {
    exists k :: 0 <= k < |es| && SpoiledAt(es, k, tx)
  }

  lemma PointKept(es: seq<Step>, e: Step, k: nat, tx: string)
    requires k <= |es|
    ensures StaleAt(es + [e], k, tx) <==> StaleAt(es, k, tx)
    ensures k < |es| ==> (SpoiledAt(es + [e], k, tx) <==> SpoiledAt(es, k, tx))
  {
    assert (es + [e])[..k] == es[..k];
  }

  lemma LastPoint(es: seq<Step>, e: Step, tx: string)
    ensures StaleAt(es + [e], |es| + 1, tx) <==> Stale(Next(Exec(es), e), tx)
    ensures SpoiledAt(es + [e], |es|, tx) <==> Spoils(Exec(es), e, tx)
  {
    var fs := es + [e];
    ExecSnoc(es, e);
    assert fs[..|es| + 1] == fs && fs[..|es|] == es;
  }

  lemma PointsExtend(es: seq<Step>, e: Step, tx: string)
    ensures StaleAtSomePoint(es + [e], tx) <==> StaleAtSomePoint(es, tx) || StaleAt(es + [e], |es| + 1, tx)
    ensures SpoiledIn(es + [e], tx) <==> SpoiledIn(es, tx) || SpoiledAt(es + [e], |es|, tx)
  {
    forall k | 0 <= k <= |es|
      ensures StaleAt(es + [e], k, tx) <==> StaleAt(es, k, tx)
      ensures k < |es| ==> (SpoiledAt(es + [e], k, tx) <==> SpoiledAt(es, k, tx))
    {
      PointKept(es, e, k, tx);
    }
  }

  lemma ExecSnoc(es: seq<Step>, e: Step)
    ensures Exec(es + [e]) == Next(Exec(es), e)
  {
    assert (es + [e])[..|es|] == es;
  }

  /**
   * For every run, with any overlaps, failures and expiries: some point of it has a stale entry of tx if and only if some
   * label of it spoils tx.
   */
  lemma {:induction false} StaleEntryIff(es: seq<Step>, tx: string)
    ensures StaleAtSomePoint(es, tx) <==> SpoiledIn(es, tx)
  {
    if es == [] {
      EndPoint(es, tx);
    } else {
      var p, e := es[..|es| - 1], es[|es| - 1];
      assert es == p + [e];
      StaleEntryIff(p, tx);
      PointsExtend(p, e, tx);
      LastPoint(p, e, tx);
      if Spoils(Exec(p), e, tx) {
        SpoilingLeavesStale(Exec(p), e, tx);
      } else if Stale(Next(Exec(p), e), tx) {
        if !Stale(Exec(p), tx) {
          StaleStepIff(Exec(p), e, tx);
        }
        EndPoint(p, tx);
      }
    }
  }

  lemma EndPoint(es: seq<Step>, tx: string)
    ensures StaleAt(es, |es|, tx) <==> Stale(Exec(es), tx)
  {
    assert es[..|es|] == es;
  }

  // ----- What the cache and the table hold -----

  /** Label k of the run saves tx into the cache. */
  ghost predicate SavesAt(es: seq<Step>, k: nat, tx: string)
    requires k < |es|
  {
    Saves(Exec(es[..k]), es[k], tx)
  }

  /** Label k of the run takes tx out of the cache. */
  ghost predicate ClearsAt(es: seq<Step>, k: nat, tx: string)
    requires k < |es|
  {
    Clears(Exec(es[..k]), es[k], tx)
  }

  predicate Saves(s: State, e: Step, tx: string) {
    e.SaveCache? && e.ok && e.req in s.pending && s.pending[e.req].Saving? && s.pending[e.req].tx == tx
  }

  predicate Clears(s: State, e: Step, tx: string) {
    || (e.DeleteCache? && e.ok && e.req in s.pending && s.pending[e.req].Deleting? && s.pending[e.req].tx == tx)
    || (e.Expire? && e.tx == tx)
  }

  /** Label k saved tx and nothing has cleared it since. */
  ghost predicate StillSaved(es: seq<Step>, k: nat, tx: string) {
    k < |es| && SavesAt(es, k, tx) && forall j :: k < j < |es| ==> !ClearsAt(es, j, tx)
  }

  lemma CacheLabelKept(es: seq<Step>, e: Step, k: nat, tx: string)
    requires k < |es|
    ensures SavesAt(es + [e], k, tx) <==> SavesAt(es, k, tx)
    ensures ClearsAt(es + [e], k, tx) <==> ClearsAt(es, k, tx)
  {
    assert (es + [e])[..k] == es[..k];
  }

  lemma CacheLabelLast(es: seq<Step>, e: Step, tx: string)
    ensures SavesAt(es + [e], |es|, tx) <==> Saves(Exec(es), e, tx)
    ensures ClearsAt(es + [e], |es|, tx) <==> Clears(Exec(es), e, tx)
  {
    assert (es + [e])[..|es|] == es;
  }

  lemma StillSavedSnoc(es: seq<Step>, e: Step, k: nat, tx: string)
    ensures StillSaved(es + [e], k, tx) <==>
            if k < |es| then StillSaved(es, k, tx) && !ClearsAt(es + [e], |es|, tx) else k == |es| && SavesAt(es + [e], |es|, tx)
  {
    forall j | 0 <= j < |es|
      ensures SavesAt(es + [e], j, tx) <==> SavesAt(es, j, tx)
      ensures ClearsAt(es + [e], j, tx) <==> ClearsAt(es, j, tx)
    {
      CacheLabelKept(es, e, j, tx);
    }
  }

  lemma StepCached(s: State, e: Step, tx: string)
    ensures tx in Next(s, e).cache <==> Saves(s, e, tx) || (tx in s.cache && !Clears(s, e, tx))
  {
  }

  /** In every run a transaction is cached if and only if some save of it has been neither deleted nor expired since. */
  lemma {:induction false} CachedIff(es: seq<Step>, tx: string)
    ensures tx in Exec(es).cache <==> exists k :: StillSaved(es, k, tx)
  {
    if es != [] {
      var p, e := es[..|es| - 1], es[|es| - 1];
      assert es == p + [e];
      CachedIff(p, tx);
      StepCached(Exec(p), e, tx);
      CacheLabelLast(p, e, tx);
      forall k: nat ensures StillSaved(es, k, tx) <==>
                       if k < |p| then StillSaved(p, k, tx) && !ClearsAt(es, |p|, tx) else k == |p| && SavesAt(es, |p|, tx) {
        StillSavedSnoc(p, e, k, tx);
      }
      if SavesAt(es, |p|, tx) {
        assert StillSaved(es, |p|, tx);
      }
    }
  }

  /** The statement a label makes take effect, if any: one that succeeds or commits unseen. */
  function CommittedBy(s: State, e: Step): (sts: seq<Statement>) {
    match e
    case StartSql(r, tx, station, connector, sql) => if r in s.pending || sql.Fails? then [] else [Insert(tx, station, connector)]
    case StopSql(r, tx, energyWh, sql) => if r in s.pending || sql.Fails? then [] else [Finish(tx, energyWh)]
    case _ => []
  }

  function Committed(es: seq<Step>): (sts: seq<Statement>) {
    if es == [] then [] else Committed(es[..|es| - 1]) + CommittedBy(Exec(es[..|es| - 1]), es[|es| - 1])
  }

  lemma StepCommits(s: State, e: Step, sts: seq<Statement>)
    requires s.table == TableOf(sts)
    ensures Next(s, e).table == TableOf(sts + CommittedBy(s, e))
  {
    assert sts + [] == sts;
    if e.StartSql? {
      TableSnoc(sts, Insert(e.tx, e.station, e.connector));
    } else if e.StopSql? {
      TableSnoc(sts, Finish(e.tx, e.energyWh));
    }
  }

  /** In every run the table is what the committed statements make it. */
  lemma {:induction false} TableIsCommitted(es: seq<Step>)
    ensures Exec(es).table == TableOf(Committed(es))
  {
    if es != [] {
      TableIsCommitted(es[..|es| - 1]);
      StepCommits(Exec(es[..|es| - 1]), es[|es| - 1], Committed(es[..|es| - 1]));
    }
  }

  // ----- Hypotheses on runs -----

  /** A request for tx arrives only when no request for tx is pending. */
  ghost predicate Serial(s: State, e: Step) {
    e.StartSql? || e.StopSql? ==> !Busy(s, e.tx)
  }

  ghost predicate SerialRun(es: seq<Step>) {
    forall k :: 0 <= k < |es| ==> Serial(Exec(es[..k]), es[k])
  }

  /** Cache deletes succeed, and no Stop's statement commits behind an error. */
  ghost predicate StopsReachCache(es: seq<Step>) {
    forall k :: 0 <= k < |es| ==> StopReachesCache(es[k])
  }

  predicate StopReachesCache(e: Step) {
    (e.DeleteCache? ==> e.ok) && (e.StopSql? ==> !e.sql.CommitsUnseen?)
  }

  /** No entry expires, every save succeeds, and no Start's statement commits behind an error. */
  ghost predicate Lossless(es: seq<Step>) {
    forall k :: 0 <= k < |es| ==> LosesNothing(es[k])
  }

  predicate LosesNothing(e: Step) {
    !e.Expire? && (e.SaveCache? ==> e.ok) && (e.StartSql? ==> !e.sql.CommitsUnseen?)
  }

  // ----- Agreement -----

  ghost predicate PendingOk(t: Table, p: Pending) {
    match p
    case Saving(tx, id) => IsActive(t, tx)
    case Deleting(tx) => tx in t.rows && t.rows[tx].status == Completed
  }

  /** What is pending is one request per transaction, and its statement still shows in the table. */
  ghost predicate PendingAgrees(s: State) {
    && (forall r :: r in s.pending ==> PendingOk(s.table, s.pending[r]))
    && (forall q, r :: q in s.pending && r in s.pending && s.pending[q].tx == s.pending[r].tx ==> q == r)
  }

  ghost predicate BeingSaved(s: State, tx: string) {
    exists r :: r in s.pending && s.pending[r].Saving? && s.pending[r].tx == tx
  }

  /** Nothing was lost: every active row is cached or about to be. */
  ghost predicate AllCached(s: State) {
    forall tx :: IsActive(s.table, tx) ==> tx in s.cache || BeingSaved(s, tx)
  }

  /** A statement for tx, which has no request pending, touches tx's row only. */
  lemma SqlPendingAgrees(s: State, table: Table, tx: string)
    requires PendingAgrees(s) && !Busy(s, tx)
    requires forall x :: x in s.table.rows && x != tx ==> x in table.rows && table.rows[x] == s.table.rows[x]
    ensures PendingAgrees(s.(table := table))
  {
    forall r | r in s.pending ensures PendingOk(table, s.pending[r]) {
      assert PendingOk(s.table, s.pending[r]) && s.pending[r].tx != tx;
    }
  }

  /** The request it belongs to is then tx's only one. */
  lemma BeginPendingAgrees(s: State, r: nat, p: Pending)
    requires PendingAgrees(s) && !Busy(s, p.tx) && r !in s.pending && PendingOk(s.table, p)
    ensures PendingAgrees(s.(pending := s.pending[r := p]))
  {
  }

  lemma StepPendingAgrees(s: State, e: Step)
    requires PendingAgrees(s) && Serial(s, e)
    ensures PendingAgrees(Next(s, e))
  {
    if e.StartSql? {
      var t := Upsert(s.table, e.tx, e.station, e.connector);
      SqlPendingAgrees(s, t, e.tx);
      if e.req !in s.pending { BeginPendingAgrees(s.(table := t), e.req, Saving(e.tx, t.rows[e.tx].id)); }
    } else if e.StopSql? && e.tx in s.table.rows {
      var t := Complete(s.table, e.tx, e.energyWh);
      SqlPendingAgrees(s, t, e.tx);
      if e.req !in s.pending { BeginPendingAgrees(s.(table := t), e.req, Deleting(e.tx)); }
    }
  }

  /** A serial step whose Stops reach the cache spoils nothing. */
  lemma SerialSpoilsNothing(s: State, e: Step, tx: string)
    requires PendingAgrees(s) && StopReachesCache(e)
    ensures !Spoils(s, e, tx)
  {
    if e.SaveCache? && e.req in s.pending {
      assert PendingOk(s.table, s.pending[e.req]);
    }
  }

  lemma StepComplete(s: State, e: Step)
    requires AllCached(s) && LosesNothing(e)
    requires forall r :: r in s.pending ==> PendingOk(s.table, s.pending[r])
    ensures AllCached(Next(s, e))
  {
    var s' := Next(s, e);
    forall tx | IsActive(s'.table, tx) && tx !in s'.cache ensures BeingSaved(s', tx)
    {
      if e.StartSql? && tx == e.tx && s' != s {
        assert s'.pending[e.req].tx == tx;
      } else {
        assert IsActive(s.table, tx);
        if tx !in s.cache {
          var r :| r in s.pending && s.pending[r].Saving? && s.pending[r].tx == tx;
          assert r in s'.pending;
        }
      }
    }
  }

  lemma {:induction false} RunAgrees(es: seq<Step>, tx: string)
    requires SerialRun(es) && StopsReachCache(es)
    ensures PendingAgrees(Exec(es)) && !SpoiledIn(es, tx) && (Lossless(es) ==> AllCached(Exec(es)))
  {
    if es != [] {
      var p, e := es[..|es| - 1], es[|es| - 1];
      assert es == p + [e];
      forall k | 0 <= k < |p| ensures p[k] == es[k] && p[..k] == es[..k] {
      }
      RunAgrees(p, tx);
      StepPendingAgrees(Exec(p), e);
      SerialSpoilsNothing(Exec(p), e, tx);
      PointsExtend(p, e, tx);
      LastPoint(p, e, tx);
      if Lossless(es) {
        StepComplete(Exec(p), e);
      }
    }
  }

  /**
   * Cache agreement. If requests for one transaction do not overlap, cache deletes succeed and no Stop commits behind an
   * error, then in every run with expiries, failed saves and failed SQL, an entry cached while no request for it is pending
   * belongs to an active row with the same session id; and if nothing expires and no save is lost either, the cached keys
   * are exactly the active transactions.
   */
  lemma CacheAgreement(es: seq<Step>, tx: string)
    requires SerialRun(es) && StopsReachCache(es) && !Busy(Exec(es), tx)
    ensures var s := Exec(es);
            && (tx in s.cache ==> IsActive(s.table, tx) && s.table.rows[tx].id == s.cache[tx])
            && (Lossless(es) ==> (tx in s.cache <==> IsActive(s.table, tx)))
  {
    RunAgrees(es, tx);
    CachedIdsAreRowIds(es);
    StaleEntryIff(es, tx);
    EndPoint(es, tx);
  }

  // ----- Each hypothesis is needed -----

  /** A run with one label more. */
  lemma Then(es: seq<Step>, s: State, e: Step) returns (es': seq<Step>, s': State)
    requires Exec(es) == s
    ensures es' == es + [e] && s' == Next(s, e) && Exec(es') == s'
    ensures SerialRun(es) && Serial(s, e) ==> SerialRun(es')
  {
    es', s' := es + [e], Next(s, e);
    ExecSnoc(es, e);
    if SerialRun(es) && Serial(s, e) {
      SerialThen(es, e);
    }
  }

  lemma SerialThen(es: seq<Step>, e: Step)
    requires SerialRun(es) && Serial(Exec(es), e)
    ensures SerialRun(es + [e])
  {
    var fs := es + [e];
    assert fs[..|es|] == es;
    forall k | 0 <= k < |es| ensures Serial(Exec(fs[..k]), fs[k]) {
      assert fs[..k] == es[..k];
    }
  }

  /** The one row of transaction "T". */
  function TheRow(status: Status, energyWh: int): Table { Table(map["T" := Row(1, "CS", 1, status, energyWh)], 2) }

  const START: Step := StartSql(0, "T", "CS", 1, Succeeds)

  /** "T" started, its cache save still pending. */
  lemma StartPending()
    ensures Next(Init(), START) == State(TheRow(Active, 0), map[], map[0 := Saving("T", 1)])
  {
    assert Upsert(Empty(), "T", "CS", 1).rows == map["T" := Row(1, "CS", 1, Active, 0)];
  }

  /** "T" started and cached. */
  lemma StartCached() returns (es: seq<Step>, s: State)
    ensures Exec(es) == s && SerialRun(es) && es == [START] + [SaveCache(0, true)]
    ensures s == State(TheRow(Active, 0), map["T" := 1], map[])
  {
    StartPending();
    var es0, s0 := Then([], Init(), START);
    assert es0 == [START];
    es, s := Then(es0, s0, SaveCache(0, true));
    assert s.pending == map[] && s.cache == map["T" := 1];
  }

  /** A whole Stop of "T" between its Start's statement and its cache save. */
  lemma Overtaken()
    ensures var s := State(TheRow(Active, 0), map[], map[0 := Saving("T", 1)]);
            Next(Next(s, StopSql(1, "T", 5, Succeeds)), DeleteCache(1, true)) ==
            State(TheRow(Completed, 5), map[], map[0 := Saving("T", 1)])
  {
    var s1 := Next(State(TheRow(Active, 0), map[], map[0 := Saving("T", 1)]), StopSql(1, "T", 5, Succeeds));
    assert s1.table.rows == map["T" := Row(1, "CS", 1, Completed, 5)];
    assert s1.pending - {1} == map[0 := Saving("T", 1)];
    assert s1.cache - {"T"} == map[];
  }

  /** A stop overtaking the cache save of its start leaves an entry for a completed session. */
  lemma OverlapLeavesStaleEntry() returns (es: seq<Step>)
    ensures StopsReachCache(es) && Lossless(es) && Stale(Exec(es), "T")
  {
    StartPending();
    Overtaken();
    var es1, s1 := Then([], Init(), START);
    var es2, s2 := Then(es1, s1, StopSql(1, "T", 5, Succeeds));
    var es3, s3 := Then(es2, s2, DeleteCache(1, true));
    assert OnlyPending(s3, 0, "T");
    var s4;
    es, s4 := Then(es3, s3, SaveCache(0, true));
    SpoilingLeavesStale(s3, SaveCache(0, true), "T");
    assert es == [START, StopSql(1, "T", 5, Succeeds), DeleteCache(1, true), SaveCache(0, true)];
  }

  /** A failed delete does so too. */
  lemma FailedDeleteLeavesStaleEntry() returns (es: seq<Step>)
    ensures SerialRun(es) && Lossless(es) && Stale(Exec(es), "T")
  {
    var es2, s2 := StartCached();
    var es3, s3 := Then(es2, s2, StopSql(1, "T", 5, Succeeds));
    assert s3.pending == map[1 := Deleting("T")] && !IsActive(s3.table, "T");
    assert OnlyPending(s3, 1, "T");
    var s4;
    es, s4 := Then(es3, s3, DeleteCache(1, false));
    SpoilingLeavesStale(s3, DeleteCache(1, false), "T");
    assert es == [START, SaveCache(0, true), StopSql(1, "T", 5, Succeeds), DeleteCache(1, false)];
  }

  /** So does a Stop whose statement commits although the service sees an error, with no overlap and no failed delete. */
  lemma UnseenCommitLeavesStaleEntry() returns (es: seq<Step>)
    ensures SerialRun(es) && Lossless(es) && (forall k :: 0 <= k < |es| ==> !es[k].DeleteCache?) && Stale(Exec(es), "T")
  {
    var es2, s2 := StartCached();
    var s3;
    es, s3 := Then(es2, s2, StopSql(1, "T", 5, CommitsUnseen));
    SpoilingLeavesStale(s2, StopSql(1, "T", 5, CommitsUnseen), "T");
    assert es == [START, SaveCache(0, true), StopSql(1, "T", 5, CommitsUnseen)];
  }

  // ----- The service itself -----

  /** One request at a time, the service's methods are two steps each of the machine above. */
  class SessionsService {
    var table: Table
    var cache: map<string, int>

    constructor ()
      ensures View() == Init()
    {
      table := Empty();
      cache := map[];
    }

    ghost function View(): State
      reads this
    {
      State(table, cache, map[])
    }

    /** StartSessionFromOCPP: 0 stands for the error return; a failed cache save is only logged. */
    method StartSession(tx: string, station: string, connector: int, sql: Sql, cacheOk: bool) returns (id: int)
      requires Wf(table)
      modifies this
      ensures View() == Next(Next(old(View()), StartSql(0, tx, station, connector, sql)), SaveCache(0, cacheOk))
      ensures Wf(table) && table == if sql.Fails? then old(table) else Upsert(old(table), tx, station, connector)
      ensures id == if sql.Succeeds? then table.rows[tx].id else 0
      ensures cache == if sql.Succeeds? && cacheOk then old(cache)[tx := id] else old(cache)
    {
      if sql.Fails? {
        return 0;
      }
      UpsertKeeps(table, tx, station, connector);
      table := Upsert(table, tx, station, connector);
      if sql.CommitsUnseen? {
        return 0;
      }
      id := table.rows[tx].id;
      if cacheOk {
        cache := cache[tx := id];
      }
      assert map[0 := Saving(tx, id)] - {0} == map[];
    }

    /** StopSessionFromOCPP: a missing row is an error and leaves the cache alone. */
    method StopSession(tx: string, energyWh: int, sql: Sql, cacheOk: bool) returns (ok: bool)
      requires Wf(table)
      modifies this
      ensures View() == Next(Next(old(View()), StopSql(0, tx, energyWh, sql)), DeleteCache(0, cacheOk))
      ensures Wf(table) && table == if sql.Fails? then old(table) else Complete(old(table), tx, energyWh)
      ensures ok <==> sql.Succeeds? && tx in old(table).rows
      ensures cache == if ok && cacheOk then old(cache) - {tx} else old(cache)
    {
      if sql.Fails? || tx !in table.rows {
        return false;
      }
      CompleteKeeps(table, tx, energyWh);
      table := Complete(table, tx, energyWh);
      if sql.CommitsUnseen? {
        return false;
      }
      if cacheOk {
        cache := cache - {tx};
      }
      assert map[0 := Deleting(tx)] - {0} == map[];
      ok := true;
    }
  }
}
