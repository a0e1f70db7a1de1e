/**
 * Energy totals of the telemetry service: MAX - MIN over a session's readings, a materialized snapshot of it that goes
 * stale (backend/services/telemetry-service), and the incremental sum of CalculateDeltaEnergy.
 */
module Telemetry {

  /** A row of telemetry_data: session id and meter value. */
  type Row = (int, real)

  /** The session's readings in insertion order. */
  function Values(rows: seq<Row>, session: int): (r: seq<real>) {
    if rows == [] then []
    else Values(rows[..|rows| - 1], session) + if rows[|rows| - 1].0 == session then [rows[|rows| - 1].1] else []
  }

  function MaxOf(s: seq<real>): (m: real)
    requires s != []
    ensures m in s && forall x :: x in s ==> x <= m
  {
    var last := s[|s| - 1];
    if |s| == 1 then last
    else
      var m := MaxOf(s[..|s| - 1]);
      assert s == s[..|s| - 1] + [last];
      if last > m then last else m
  }

  function MinOf(s: seq<real>): (m: real)
    requires s != []
    ensures m in s && forall x :: x in s ==> m <= x
  {
    var last := s[|s| - 1];
    if |s| == 1 then last
    else
      var m := MinOf(s[..|s| - 1]);
      assert s == s[..|s| - 1] + [last];
      if last < m then last else m
  }

  /** SumEnergyBySession: COALESCE(MAX - MIN, 0), cut off at 0. */
  function SumEnergy(rows: seq<Row>, session: int): (r: real) {
    var v := Values(rows, session);
    if v == [] then 0.0
    else
      var total := MaxOf(v) - MinOf(v);
      if total < 0.0 then 0.0 else total
  }

  /** session_energy_view over the rows present when it was refreshed: one line per session that has readings. */
  function ViewOf(rows: seq<Row>): (r: map<int, real>) {
    map i | 0 <= i < |rows| && Values(rows, rows[i].0) != [] ::
      rows[i].0 := MaxOf(Values(rows, rows[i].0)) - MinOf(Values(rows, rows[i].0))
  }

  /** A value is among a session's readings exactly when some row says so, whatever the order of the rows. */
  lemma {:induction false} ValuesMember(rows: seq<Row>, session: int, x: real)
    ensures x in Values(rows, session) <==> (session, x) in rows
  {
    if rows != [] {
      var p := rows[..|rows| - 1];
      assert rows == p + [rows[|rows| - 1]];
      ValuesMember(p, session, x);
    }
  }

  /** The total is the width of the smallest interval that holds the session's readings. */
  lemma SumEnergyIsSpread(rows: seq<Row>, session: int)
    ensures SumEnergy(rows, session) >= 0.0
    ensures forall x, y :: (session, x) in rows && (session, y) in rows ==> y - x <= SumEnergy(rows, session)
    ensures (forall x :: (session, x) !in rows) ==> SumEnergy(rows, session) == 0.0
    ensures (exists x :: (session, x) in rows) ==>
              exists x, y :: (session, x) in rows && (session, y) in rows && SumEnergy(rows, session) == y - x
  {
    var v := Values(rows, session);
    forall x ensures x in v <==> (session, x) in rows {
      ValuesMember(rows, session, x);
    }
    if v != [] {
      assert (session, MaxOf(v)) in rows && (session, MinOf(v)) in rows;
    } else {
      forall x ensures (session, x) !in rows {
        ValuesMember(rows, session, x);
      }
    }
  }

  /** The fallback does not depend on the order in which readings arrived. */
  lemma OrderIndependent(rows: seq<Row>, rows': seq<Row>, session: int)
    requires multiset(rows) == multiset(rows')
    ensures SumEnergy(rows, session) == SumEnergy(rows', session)
  {
    forall r: Row ensures r in rows <==> r in rows' {
      assert r in multiset(rows) <==> r in multiset(rows');
    }
    var v, v' := Values(rows, session), Values(rows', session);
    forall x ensures x in v <==> x in v' {
      ValuesMember(rows, session, x);
      ValuesMember(rows', session, x);
    }
    if v != [] {
      assert v[0] in v';
    }
    if v' != [] {
      assert v'[0] in v;
    }
  }

  // ----- The snapshot -----

  /** TotalEnergy with a readable view refreshed when the first n rows were there. */
  function Total(rows: seq<Row>, n: nat, session: int): (r: real)
    requires n <= |rows|
  {
    var view := ViewOf(rows[..n]);
    if session in view then view[session] else SumEnergy(rows, session)
  }

  /** A session with a reading has a row. */
  lemma SomeRow(rows: seq<Row>, session: int) returns (i: nat)
    requires Values(rows, session) != []
    ensures i < |rows| && rows[i].0 == session
  {
    var x := Values(rows, session)[0];
    ValuesMember(rows, session, x);
    i :| 0 <= i < |rows| && rows[i] == (session, x);
  }

  lemma ViewLine(rows: seq<Row>, session: int)
    requires session in ViewOf(rows)
    ensures Values(rows, session) != []
    ensures ViewOf(rows)[session] == MaxOf(Values(rows, session)) - MinOf(Values(rows, session))
  {
  }

  lemma ViewHas(rows: seq<Row>, session: int)
    ensures session in ViewOf(rows) <==> Values(rows, session) != []
    ensures session in ViewOf(rows) ==> ViewOf(rows)[session] == SumEnergy(rows, session)
  {
    if Values(rows, session) != [] {
      var i := SomeRow(rows, session);
      assert rows[i].0 in ViewOf(rows);
    }
    if session in ViewOf(rows) {
      ViewLine(rows, session);
      assert MinOf(Values(rows, session)) <= MaxOf(Values(rows, session));
    }
  }

  /** All readings of the session that arrived after row n lie between the least and the greatest of those before. */
  ghost predicate NothingNew(rows: seq<Row>, n: nat, session: int)
    requires n <= |rows| && Values(rows[..n], session) != []
  {
    var v := Values(rows[..n], session);
    forall i :: n <= i < |rows| && rows[i].0 == session ==> MinOf(v) <= rows[i].1 <= MaxOf(v)
  }

  /**
   * For any history of inserts and refreshes: TotalEnergy is never negative and never above the exact spread; and it is
   * exact if and only if the session was not yet in the snapshot or nothing since then fell outside its range.
   */
  lemma TotalBounds(rows: seq<Row>, n: nat, session: int)
    requires n <= |rows|
    ensures 0.0 <= Total(rows, n, session) <= SumEnergy(rows, session)
    ensures Total(rows, n, session) == SumEnergy(rows, session) <==>
            Values(rows[..n], session) == [] || NothingNew(rows, n, session)
    ensures (forall i :: n <= i < |rows| ==> rows[i].0 != session) ==> Total(rows, n, session) == SumEnergy(rows, session)
  {
    ViewHas(rows[..n], session);
    var earlier, all := Values(rows[..n], session), Values(rows, session);
    forall x ensures x in all <==> (session, x) in rows {
      ValuesMember(rows, session, x);
    }
    forall x ensures x in earlier <==> (session, x) in rows[..n] {
      ValuesMember(rows[..n], session, x);
    }
    if earlier != [] {
      assert MaxOf(earlier) in all && MinOf(earlier) in all;
      if MaxOf(all) == MaxOf(earlier) && MinOf(all) == MinOf(earlier) {
        forall i | n <= i < |rows| && rows[i].0 == session ensures MinOf(earlier) <= rows[i].1 <= MaxOf(earlier) {
          assert rows[i] == (session, rows[i].1);
        }
      } else {
        var x := if MaxOf(all) != MaxOf(earlier) then MaxOf(all) else MinOf(all);
        assert (session, x) !in rows[..n];
        forall k | 0 <= k < n ensures rows[k] != (session, x) {
          assert rows[k] == rows[..n][k];
        }
        var i :| 0 <= i < |rows| && rows[i] == (session, x);
        assert i >= n;
      }
    }
  }

  /** The telemetry database: its rows, and the view with the number of rows it was made from. */
  class TelemetryService {
    var rows: seq<Row>
    var view: map<int, real>
    ghost var seen: nat

    ghost predicate Valid()
      reads this
    {
      seen <= |rows| && view == ViewOf(rows[..seen])
    }

    /** The migrations create the view over the empty table. */
    constructor ()
      ensures Valid() && rows == [] && seen == 0
    {
      rows, view, seen := [], map[], 0;
    }

    /** StoreMeterValue; a failed insert stores nothing. */
    method StoreMeterValue(session: int, value: real, dbOk: bool)
      requires Valid()
      modifies this`rows
      ensures Valid() && rows == if dbOk then old(rows) + [(session, value)] else old(rows)
    {
      if dbOk {
        assert (rows + [(session, value)])[..seen] == rows[..seen];
        rows := rows + [(session, value)];
      }
    }

    /** REFRESH MATERIALIZED VIEW. */
    method Refresh()
      requires Valid()
      modifies this`view, this`seen
      ensures Valid() && seen == |rows|
    {
      assert rows[..|rows|] == rows;
      view, seen := ViewOf(rows), |rows|;
    }

    /** TotalEnergy: the view's line when it can be read, else the exact query. */
    method TotalEnergy(session: int, viewReadable: bool) returns (total: real)
      requires Valid()
      ensures total == if viewReadable then Total(rows, seen, session) else SumEnergy(rows, session)
      ensures 0.0 <= total <= SumEnergy(rows, session)
    {
      TotalBounds(rows, seen, session);
      SumEnergyIsSpread(rows, session);
      if viewReadable && session in view {
        return view[session];
      }
      total := SumEnergy(rows, session);
    }
  }

  // ----- Incremental energy -----

  /** energy_calc.go. */
  function DeltaEnergy(prev: real, current: real): (r: real) {
    if current < prev then 0.0 else current - prev
  }

  /** The sum of the deltas between consecutive readings. */
  function SumDeltas(s: seq<real>): (r: real) {
    if |s| <= 1 then 0.0 else SumDeltas(s[..|s| - 1]) + DeltaEnergy(s[|s| - 2], s[|s| - 1])
  }

  ghost predicate NonDecreasing(s: seq<real>) {
    forall i :: 0 < i < |s| ==> s[i - 1] <= s[i]
  }

  /** The incremental sum is at least every rise from an earlier to a later reading. */
  lemma {:induction false} DeltasCoverRises(s: seq<real>, i: nat, j: nat)
    requires i <= j < |s|
    ensures SumDeltas(s) >= s[j] - s[i]
    ensures SumDeltas(s) >= 0.0
  {
    if |s| > 1 {
      var p := s[..|s| - 1];
      if j < |p| {
        DeltasCoverRises(p, i, j);
      } else if i < |p| {
        DeltasCoverRises(p, i, |p| - 1);
      } else {
        DeltasCoverRises(p, 0, 0);
      }
    }
  }

  /** It telescopes to last - first if and only if the readings never fall. */
  lemma {:induction false} DeltasTelescopeIff(s: seq<real>)
    requires s != []
    ensures SumDeltas(s) >= s[|s| - 1] - s[0]
    ensures SumDeltas(s) == s[|s| - 1] - s[0] <==> NonDecreasing(s)
  {
    if |s| > 1 {
      var p := s[..|s| - 1];
      DeltasTelescopeIff(p);
      if NonDecreasing(s) {
        assert NonDecreasing(p);
      }
      if NonDecreasing(p) && s[|s| - 2] <= s[|s| - 1] {
        forall i | 0 < i < |s| ensures s[i - 1] <= s[i] {
          assert i < |p| ==> p[i - 1] <= p[i];
        }
      }
    }
  }

  ghost predicate NonIncreasing(s: seq<real>) {
    forall i :: 0 < i < |s| ==> s[i] <= s[i - 1]
  }

  /** A delta counts a rise in full and a fall not at all. */
  lemma DeltaIsRise(prev: real, current: real)
    ensures current >= prev ==> DeltaEnergy(prev, current) == current - prev
    ensures current <= prev ==> DeltaEnergy(prev, current) == 0.0
  {
  }

  /** The sum of all falls between consecutive readings. */
  function SumFalls(s: seq<real>): (r: real) {
    if |s| <= 1 then 0.0 else SumFalls(s[..|s| - 1]) + if s[|s| - 1] < s[|s| - 2] then s[|s| - 2] - s[|s| - 1] else 0.0
  }

  /** The incremental sum exceeds last - first by exactly the falls it ignores, and it is 0 exactly when no reading rises. */
  lemma {:induction false} DeltasIgnoreFalls(s: seq<real>)
    requires s != []
    ensures SumDeltas(s) == s[|s| - 1] - s[0] + SumFalls(s)
    ensures SumDeltas(s) >= 0.0 && (SumDeltas(s) == 0.0 <==> NonIncreasing(s))
  {
    if |s| > 1 {
      var p := s[..|s| - 1];
      DeltasIgnoreFalls(p);
      DeltaIsRise(s[|s| - 2], s[|s| - 1]);
      if NonIncreasing(s) {
        assert NonIncreasing(p);
      }
      if NonIncreasing(p) && s[|s| - 1] <= s[|s| - 2] {
        forall i | 0 < i < |s| ensures s[i] <= s[i - 1] {
          assert i < |p| ==> p[i] <= p[i - 1];
        }
      }
    }
  }

  lemma {:induction false} NonDecreasingEnds(s: seq<real>)
    requires s != [] && NonDecreasing(s)
    ensures MinOf(s) == s[0] && MaxOf(s) == s[|s| - 1]
  {
    if |s| > 1 {
      NonDecreasingEnds(s[..|s| - 1]);
    }
  }

  /** For readings that never fall the incremental sum and the batch query agree. */
  lemma IncrementalMeetsBatch(rows: seq<Row>, session: int)
    requires NonDecreasing(Values(rows, session))
    ensures SumDeltas(Values(rows, session)) == SumEnergy(rows, session)
  {
    var v := Values(rows, session);
    if v != [] {
      DeltasTelescopeIff(v);
      NonDecreasingEnds(v);
    }
  }
}
