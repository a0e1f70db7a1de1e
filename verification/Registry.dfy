/**
 * The connection registry (backend/services/ocpp-server/internal/ws/manager.go) under any interleaving of HandleWS adding
 * connections and their on-close callbacks removing by station id (server.go).
 */
module Registry {

  type Station = string
  type ConnId = nat

  datatype Step =
    | Connect(conn: ConnId, station: Station)
    | OnClose(conn: ConnId)

  /** station is the station of every connection added so far; finished are those whose on-close has run. */
  datatype State = State(registered: map<Station, ConnId>, station: map<ConnId, Station>, finished: set<ConnId>)

  function Init(): State { State(map[], map[], {}) }

  predicate Enabled(s: State, e: Step) {
    match e
    case Connect(c, _) => c !in s.station
    case OnClose(c) => c in s.station && c !in s.finished
  }

  /** Add overwrites the station's entry; Remove deletes it whoever holds it. */
  function Next(s: State, e: Step): State {
    if !Enabled(s, e) then s
    else
      match e
      case Connect(c, st) => s.(registered := s.registered[st := c], station := s.station[c := st])
      case OnClose(c) => s.(registered := s.registered - {s.station[c]}, finished := s.finished + {c})
  }

  function Exec(es: seq<Step>): State {
    if es == [] then Init() else Next(Exec(es[..|es| - 1]), es[|es| - 1])
  }

  ghost predicate Sane(s: State) {
    && s.finished <= s.station.Keys
    && (forall st :: st in s.registered ==>
          s.registered[st] in s.station && s.station[s.registered[st]] == st && s.registered[st] !in s.finished)
  }

  /** No registered connection is one whose on-close callback has finished, and each is registered under its own station. */
  lemma {:induction false} RegisteredAreOpen(es: seq<Step>)
    ensures Sane(Exec(es))
  {
    if es != [] {
      RegisteredAreOpen(es[..|es| - 1]);
    }
  }

  /** A connection is open once added and until its on-close has run. */
  predicate Open(s: State, c: ConnId) { c in s.station && c !in s.finished }

  /** The label touches the registry entry of station st, for another connection than c. */
  ghost predicate Touches(s: State, e: Step, c: ConnId, st: Station) {
    Enabled(s, e) && e.conn != c && ((e.Connect? && e.station == st) || (e.OnClose? && s.station[e.conn] == st))
  }

  /** After c was added, another connection of its station was added or closed. */
  ghost predicate Disturbed(es: seq<Step>, c: ConnId) {
    exists k :: 0 <= k < |es| && DisturbedAt(es, k, c)
  }

  ghost predicate DisturbedAt(es: seq<Step>, k: nat, c: ConnId)
    requires k < |es|
  {
    var s := Exec(es[..k]);
    c in s.station && Touches(s, es[k], c, s.station[c])
  }

  lemma DisturbedSnoc(es: seq<Step>, e: Step, c: ConnId)
    ensures Disturbed(es + [e], c) <==>
            Disturbed(es, c) || (c in Exec(es).station && Touches(Exec(es), e, c, Exec(es).station[c]))
  {
    var fs := es + [e];
    assert fs[..|es|] == es;
    forall k | 0 <= k < |es| ensures DisturbedAt(fs, k, c) <==> DisturbedAt(es, k, c) {
      assert fs[..k] == es[..k];
    }
    if Disturbed(es, c) {
      var k :| 0 <= k < |es| && DisturbedAt(es, k, c);
      assert DisturbedAt(fs, k, c);
    }
    if c in Exec(es).station && Touches(Exec(es), e, c, Exec(es).station[c]) {
      assert DisturbedAt(fs, |es|, c);
    }
  }

  /**
   * For every run: an open connection is the one registered for its station if and only if no other connection of that
   * station was added or closed since it was added.
   */
  lemma {:induction false} RegisteredIff(es: seq<Step>, c: ConnId)
    requires Open(Exec(es), c)
    ensures var s := Exec(es);
            (s.station[c] in s.registered && s.registered[s.station[c]] == c) <==> !Disturbed(es, c)
  {
    if es != [] {
      var p, e := es[..|es| - 1], es[|es| - 1];
      assert es == p + [e];
      RegisteredAreOpen(p);
      DisturbedSnoc(p, e, c);
      if c in Exec(p).station {
        RegisteredIff(p, c);
      } else {
        NotDisturbedBeforeAdded(p, c);
      }
    }
  }

  lemma {:induction false} NotDisturbedBeforeAdded(es: seq<Step>, c: ConnId)
    requires c !in Exec(es).station
    ensures !Disturbed(es, c)
  {
    if es != [] {
      var p, e := es[..|es| - 1], es[|es| - 1];
      assert es == p + [e];
      NotDisturbedBeforeAdded(p, c);
      DisturbedSnoc(p, e, c);
    }
  }

  /** No connection of a station is added while another of that station is open. */
  ghost predicate NeverOverlap(es: seq<Step>) {
    forall k :: 0 <= k < |es| ==> NoOverlapAt(es, k)
  }

  ghost predicate NoOverlapAt(es: seq<Step>, k: nat)
    requires k < |es|
  {
    var s := Exec(es[..k]);
    es[k].Connect? && Enabled(s, es[k]) ==> forall c :: Open(s, c) ==> s.station[c] != es[k].station
  }

  /** Every open connection is registered under its station, and every entry is an open connection of its station. */
  ghost predicate Exact(s: State) {
    && (forall c :: Open(s, c) ==> RegisteredAs(s, c))
    && (forall st :: st in s.registered ==> Open(s, s.registered[st]) && s.station[s.registered[st]] == st)
  }

  /** If connections of one station never overlap, the registry is exactly the open connections. */
  lemma {:induction false} RegistryIsOpenConnections(es: seq<Step>)
    requires NeverOverlap(es)
    ensures Exact(Exec(es))
  {
    RegisteredAreOpen(es);
    if es != [] {
      var p, e := es[..|es| - 1], es[|es| - 1];
      assert es == p + [e];
      forall k | 0 <= k < |p| ensures NoOverlapAt(p, k) {
        assert p[..k] == es[..k] && NoOverlapAt(es, k);
      }
      RegistryIsOpenConnections(p);
      RegisteredAreOpen(p);
      assert NoOverlapAt(es, |p|);
      assert es[..|p|] == p;
      forall c | Open(Exec(es), c) ensures RegisteredAs(Exec(es), c) {
        StepKeepsRegistered(Exec(p), e, c);
      }
    }
  }

  ghost predicate RegisteredAs(s: State, c: ConnId)
    requires Open(s, c)
  {
    s.station[c] in s.registered && s.registered[s.station[c]] == c
  }

  lemma StepKeepsRegistered(s: State, e: Step, c: ConnId)
    requires Sane(s) && Open(Next(s, e), c)
    requires Exact(s)
    requires e.Connect? && Enabled(s, e) ==> forall d :: Open(s, d) ==> s.station[d] != e.station
    ensures RegisteredAs(Next(s, e), c)
  {
    if c in s.station {
      assert Open(s, c) && RegisteredAs(s, c);
      if e.OnClose? && Enabled(s, e) {
        assert Open(s, e.conn) && RegisteredAs(s, e.conn);
      }
    }
  }

  /** With overlap, closing the older connection unregisters the newer one, which is still open. */
  lemma OlderCloseUnregistersNewer()
    ensures var s := Exec([Connect(0, "CS"), Connect(1, "CS"), OnClose(0)]); Open(s, 1) && "CS" !in s.registered
  {
    var a, b, c := Connect(0, "CS"), Connect(1, "CS"), OnClose(0);
    assert [a, b, c][..2] == [a, b] && [a, b][..1] == [a] && [a][..0] == [];
    var s1 := Next(Init(), a);
    assert Exec([a]) == s1;
    var s2 := Next(s1, b);
    assert Exec([a, b]) == s2;
  }

  /** The manager object; `state` also remembers which connections there have been. */
  class Manager {
    var connections: map<Station, ConnId>
    ghost var state: State

    ghost predicate Valid()
      reads this
    {
      connections == state.registered && Sane(state)
    }

    constructor ()
      ensures Valid() && state == Init()
    {
      connections := map[];
      state := Init();
    }

    /** HandleWS registers a connection it has just made. */
    method Add(conn: ConnId, station: Station)
      requires Valid() && conn !in state.station
      modifies this
      ensures Valid() && state == Next(old(state), Connect(conn, station))
      ensures station in connections && connections[station] == conn
    {
      connections := connections[station := conn];
      state := Next(state, Connect(conn, station));
    }

    /** The on-close callback knows only its station id. */
    method Remove(station: Station, ghost conn: ConnId)
      requires Valid() && Open(state, conn) && state.station[conn] == station
      modifies this
      ensures Valid() && state == Next(old(state), OnClose(conn))
      ensures station !in connections
    {
      connections := connections - {station};
      state := Next(state, OnClose(conn));
    }
  }
}
