/**
 * The in-memory station state (backend/services/ocpp-server/internal/service/station_state.go): a map of pointers to
 * records that hold a map each, updated in place, and a deep-copying Snapshot.
 */
module StationState {

  datatype Event =
    | StationIs(station: string, status: string)
    | ConnectorIs(station: string, connector: int, status: string)

  /** The value of one record. */
  datatype Info = Info(status: string, connectors: map<int, string>)

  /** The states the updates go through: a missing record is made empty first. */
  function Apply(m: map<string, Info>, e: Event): (r: map<string, Info>) {
    var info := if e.station in m then m[e.station] else Info("", map[]);
    match e
    case StationIs(st, status) => m[st := info.(status := status)]
    case ConnectorIs(st, c, status) => m[st := info.(connectors := info.connectors[c := status])]
  }

  function Fold(log: seq<Event>): (r: map<string, Info>) {
    if log == [] then map[] else Apply(Fold(log[..|log| - 1]), log[|log| - 1])
  }

  lemma FoldSnoc(log: seq<Event>, e: Event)
    ensures Fold(log + [e]) == Apply(Fold(log), e)
  {
    assert (log + [e])[..|log|] == log;
  }

  // ----- Last write wins -----

  /** The last event of the log that satisfies the predicate by its position. */
  ghost predicate LastAt(log: seq<Event>, i: int, p: Event -> bool) {
    && 0 <= i < |log| && p(log[i])
    && forall j :: i < j < |log| ==> !p(log[j])
  }

  ghost function OfStation(st: string): Event -> bool { (e: Event) => e.StationIs? && e.station == st }

  ghost function OfConnector(st: string, c: int): Event -> bool { (e: Event) => e.ConnectorIs? && e.station == st && e.connector == c }

  /** A station is known exactly when some event names it. */
  lemma {:induction false} KnownIffNamed(log: seq<Event>, st: string)
    ensures st in Fold(log) <==> exists i :: 0 <= i < |log| && log[i].station == st
  {
    if log != [] {
      var p := log[..|log| - 1];
      KnownIffNamed(p, st);
      if i :| 0 <= i < |p| && p[i].station == st {
        assert log[i] == p[i];
      }
      if i :| 0 <= i < |log| && log[i].station == st {
        assert i < |p| ==> p[i] == log[i];
        if i == |p| {
          assert log[|log| - 1].station == st;
        }
      }
    }
  }

  /** A station's status is that of its last StationIs, and empty when there is none. */
  lemma {:induction false} StatusIsLastWrite(log: seq<Event>, st: string, i: int)
    ensures LastAt(log, i, OfStation(st)) ==> st in Fold(log) && Fold(log)[st].status == log[i].status
    ensures (forall j :: 0 <= j < |log| ==> !OfStation(st)(log[j])) && st in Fold(log) ==> Fold(log)[st].status == ""
  {
    if log != [] {
      var p := log[..|log| - 1];
      StatusIsLastWrite(p, st, i);
      if LastAt(log, i, OfStation(st)) && i < |p| {
        assert LastAt(p, i, OfStation(st));
      }
      if forall j :: 0 <= j < |log| ==> !OfStation(st)(log[j]) {
        assert forall j :: 0 <= j < |p| ==> p[j] == log[j];
      }
    }
  }

  /** A connector's status is that of its last ConnectorIs, and it is absent when there is none. */
  lemma {:induction false} ConnectorIsLastWrite(log: seq<Event>, st: string, c: int, i: int)
    ensures LastAt(log, i, OfConnector(st, c)) ==>
              st in Fold(log) && c in Fold(log)[st].connectors && Fold(log)[st].connectors[c] == log[i].status
    ensures (forall j :: 0 <= j < |log| ==> !OfConnector(st, c)(log[j])) && st in Fold(log) ==> c !in Fold(log)[st].connectors
  {
    if log != [] {
      var p := log[..|log| - 1];
      ConnectorIsLastWrite(p, st, c, i);
      if LastAt(log, i, OfConnector(st, c)) && i < |p| {
        assert LastAt(p, i, OfConnector(st, c));
      }
      if forall j :: 0 <= j < |log| ==> !OfConnector(st, c)(log[j]) {
        assert forall j :: 0 <= j < |p| ==> p[j] == log[j];
      }
    }
  }

  /** The events of one station. */
  function Only(log: seq<Event>, st: string): (r: seq<Event>) {
    if log == [] then []
    else Only(log[..|log| - 1], st) + if log[|log| - 1].station == st then [log[|log| - 1]] else []
  }

  ghost predicate SameAt(m: map<string, Info>, m': map<string, Info>, st: string) {
    (st in m <==> st in m') && (st in m ==> m[st] == m'[st])
  }

  /** Stations are independent: what is known of one depends on its own events only. */
  lemma {:induction false} StationsAreIndependent(log: seq<Event>, st: string)
    ensures SameAt(Fold(log), Fold(Only(log, st)), st)
  {
    if log != [] {
      var p, e := log[..|log| - 1], log[|log| - 1];
      StationsAreIndependent(p, st);
      if e.station == st {
        var o := Only(p, st);
        assert Only(log, st) == o + [e];
        assert (o + [e])[..|o|] == o;
      } else {
        assert Only(log, st) == Only(p, st);
      }
    }
  }

  // ----- The objects -----

  /** A Go map: an object that whoever holds a reference to it can change. */
  class GoMap<K(==), V> {
    var data: map<K, V>

    constructor ()
      ensures data == map[]
    {
      data := map[];
    }

    method Put(key: K, value: V)
      modifies this
      ensures data == old(data)[key := value]
    {
      data := data[key := value];
    }
  }

  /** map[int]ConnectorState. */
  type ConnectorMap = GoMap<int, string>

  /** StationRuntimeState behind a pointer, as the store holds it. */
  class Runtime {
    var status: string
    const connectors: ConnectorMap

    constructor ()
      ensures status == "" && fresh(connectors) && connectors.data == map[]
    {
      status := "";
      connectors := new GoMap<int, string>();
    }
  }

  /** StationRuntimeState by value, as a snapshot holds it: the status is copied, the map is still a reference. */
  datatype StationCopy = StationCopy(status: string, connectors: ConnectorMap)

  ghost function InfoOf(r: Runtime): Info
    reads r, r.connectors
  {
    Info(r.status, r.connectors.data)
  }

  ghost function MapsOf(m: map<string, Runtime>): set<ConnectorMap> {
    set st | st in m :: m[st].connectors
  }

  ghost function ValuesOf(m: map<string, Runtime>): map<string, Info>
    reads m.Values, MapsOf(m)
  {
    map st | st in m :: InfoOf(m[st])
  }

  ghost function MapsIn(m: map<string, StationCopy>): set<ConnectorMap> {
    set st | st in m :: m[st].connectors
  }

  ghost function CopiesOf(m: map<string, StationCopy>): map<string, Info>
    reads MapsIn(m)
  {
    map st | st in m :: Info(m[st].status, m[st].connectors.data)
  }

  lemma OneChanged(m: map<string, Runtime>, before: map<string, Info>, station: string)
    requires station in m && m.Keys == before.Keys + {station}
    requires forall st :: st in m && st != station ==> InfoOf(m[st]) == before[st]
    ensures ValuesOf(m) == before[station := InfoOf(m[station])]
  {
  }

  lemma SameValues(copies: map<string, StationCopy>, m: map<string, Runtime>)
    requires copies.Keys == m.Keys
    requires forall st :: st in m ==> copies[st].status == m[st].status && copies[st].connectors.data == m[st].connectors.data
    ensures CopiesOf(copies) == ValuesOf(m)
  {
  }

  /** No two stations share a record or a connector map. */
  ghost predicate Unshared(m: map<string, Runtime>) {
    forall a, b :: a in m && b in m && a != b ==> m[a] != m[b] && m[a].connectors != m[b].connectors
  }

  /** No two lines of a snapshot share a connector map. */
  ghost predicate CopiesUnshared(m: map<string, StationCopy>) {
    forall a, b :: a in m && b in m && a != b ==> m[a].connectors != m[b].connectors
  }

  /** The inner loop of Snapshot: a new map filled entry by entry. */
  method CopyEntries<K(==), V>(source: GoMap<K, V>) returns (copy: GoMap<K, V>)
    ensures fresh(copy) && copy.data == source.data
  {
    copy := new GoMap<K, V>();
    var entries := source.data;
    var cids := entries.Keys;
    while cids != {}
      invariant fresh(copy)
      invariant cids <= entries.Keys && copy.data.Keys == entries.Keys - cids
      invariant forall c :: c in copy.data ==> copy.data[c] == entries[c]
      decreases cids
    {
      var cid :| cid in cids;
      cids := cids - {cid};
      copy.Put(cid, entries[cid]);
    }
  }

  class State {
    var stations: map<string, Runtime>
    ghost var log: seq<Event>

    ghost function Records(): set<Runtime>
      reads this
    {
      stations.Values
    }

    ghost function Maps(): set<ConnectorMap>
      reads this
    {
      MapsOf(stations)
    }

    /** Records and maps are pairwise distinct and hold the last-write-wins fold of the updates so far. */
    ghost predicate Valid()
      reads this, Records(), Maps()
    {
      Unshared(stations) && ValuesOf(stations) == Fold(log)
    }

    constructor ()
      ensures Valid() && log == [] && stations == map[]
    {
      stations, log := map[], [];
    }

    /** The record of a station, made when it is missing. */
    method RecordOf(station: string) returns (r: Runtime)
      requires Unshared(stations)
      modifies this`stations
      ensures Unshared(stations) && station in stations && stations[station] == r
      ensures if station in old(stations) then stations == old(stations)
              else fresh(r) && fresh(r.connectors) && stations == old(stations)[station := r] && InfoOf(r) == Info("", map[])
    {
      if station in stations {
        return stations[station];
      }
      r := new Runtime();
      stations := stations[station := r];
    }

    method UpdateStation(station: string, status: string)
      requires Valid()
      modifies this, Records()
      ensures Valid() && log == old(log) + [StationIs(station, status)]
      ensures fresh(Records() - old(Records())) && fresh(Maps() - old(Maps()))
    {
      ghost var before, e := ValuesOf(stations), StationIs(station, status);
      var r := RecordOf(station);
      r.status := status;
      log := log + [e];
      forall st | st in stations && st != station ensures st in before && InfoOf(stations[st]) == before[st] {
        assert stations[st] != r;
      }
      OneChanged(stations, before, station);
      FoldSnoc(old(log), e);
    }

    /** The connector is written into the record's own map, in place. */
    method UpdateConnector(station: string, connector: int, status: string)
      requires Valid()
      modifies this, Maps()
      ensures Valid() && log == old(log) + [ConnectorIs(station, connector, status)]
      ensures fresh(Records() - old(Records())) && fresh(Maps() - old(Maps()))
    {
      ghost var before, e := ValuesOf(stations), ConnectorIs(station, connector, status);
      var r := RecordOf(station);
      assert station in before ==> InfoOf(r) == before[station];
      r.connectors.Put(connector, status);
      log := log + [e];
      forall st | st in stations && st != station ensures st in before && InfoOf(stations[st]) == before[st] {
        assert stations[st].connectors != r.connectors;
      }
      OneChanged(stations, before, station);
      FoldSnoc(old(log), e);
    }

    /** Either update. */
    method Update(e: Event)
      requires Valid()
      modifies this, Records(), Maps()
      ensures Valid() && log == old(log) + [e]
      ensures fresh(Records() - old(Records())) && fresh(Maps() - old(Maps()))
    {
      match e
      case StationIs(st, status) => UpdateStation(st, status);
      case ConnectorIs(st, c, status) => UpdateConnector(st, c, status);
    }

    /** A copy record by record, with a new map per record filled connector by connector. */
    method Snapshot() returns (result: map<string, StationCopy>)
      requires Valid()
      ensures fresh(MapsIn(result)) && CopiesUnshared(result)
      ensures CopiesOf(result) == ValuesOf(stations) == Fold(log)
    {
      result := map[];
      var ids := stations.Keys;
      while ids != {}
        invariant ids <= stations.Keys && result.Keys == stations.Keys - ids
        invariant (forall st :: st in result ==> fresh(result[st].connectors)) && CopiesUnshared(result)
        invariant forall st :: st in result ==>
                    result[st].status == stations[st].status && result[st].connectors.data == stations[st].connectors.data
        decreases ids
      {
        var id :| id in ids;
        ids := ids - {id};
        var copy := CopyOf(stations[id]);
        result := result[id := copy];
      }
      SameValues(result, stations);
    }

    method CopyOf(r: Runtime) returns (copy: StationCopy)
      ensures fresh(copy.connectors) && copy.status == r.status && copy.connectors.data == r.connectors.data
    {
      var connectors := CopyEntries(r.connectors);
      copy := StationCopy(r.status, connectors);
    }

    /** A snapshot shares no map with the store, and no later run of updates changes it. */
    method SnapshotThenUpdate(events: seq<Event>) returns (result: map<string, StationCopy>)
      requires Valid()
      modifies this, Records(), Maps()
      ensures Valid() && log == old(log) + events
      ensures fresh(MapsIn(result)) && MapsIn(result) !! Maps() && CopiesOf(result) == Fold(old(log))
    {
      result := Snapshot();
      UpdateBeside(result, events);
    }

    /** Updates leave alone whatever snapshot shares no map with the store. */
    method UpdateBeside(snapshot: map<string, StationCopy>, events: seq<Event>)
      requires Valid() && MapsIn(snapshot) !! Maps()
      modifies this, Records(), Maps()
      ensures Valid() && log == old(log) + events
      ensures MapsIn(snapshot) !! Maps() && CopiesOf(snapshot) == old(CopiesOf(snapshot))
    {
      UpdateAll(events);
      forall m | m in MapsIn(snapshot) ensures m !in Maps() {
        assert m !in Maps() - old(Maps());
      }
    }

    /** Any run of updates; it touches no map but those of the store. */
    method UpdateAll(events: seq<Event>)
      requires Valid()
      modifies this, Records(), Maps()
      ensures Valid() && log == old(log) + events
      ensures fresh(Records() - old(Records())) && fresh(Maps() - old(Maps()))
    {
      if events != [] {
        var n := |events| - 1;
        UpdateAll(events[..n]);
        Update(events[n]);
        assert log == (old(log) + events[..n]) + [events[n]];
        assert events == events[..n] + [events[n]];
      }
    }

    /** Nor does writing into a snapshot's map change the store. */
    method WriteIntoSnapshot(snapshot: map<string, StationCopy>, station: string, connector: int, status: string)
      requires Valid() && station in snapshot && MapsIn(snapshot) !! Maps()
      modifies MapsIn(snapshot)
      ensures Valid() && ValuesOf(stations) == old(ValuesOf(stations))
    {
      assert snapshot[station].connectors in MapsIn(snapshot);
      snapshot[station].connectors.Put(connector, status);
    }
  }

  // ----- What a Stop leaves behind -----

  /** A Stop marks the station Available and leaves every connector as it was. */
  lemma StopKeepsConnectors(log: seq<Event>, st: string)
    ensures var before, after := Fold(log), Fold(log + [StationIs(st, "Available")]);
            && st in after && after[st].status == "Available"
            && after[st].connectors == if st in before then before[st].connectors else map[]
  {
    FoldSnoc(log, StationIs(st, "Available"));
  }

  /**
   * So a connector marked Charging by a Start still reads Charging after the Stop, whatever else is reported in between,
   * unless a report names that very connector.
   */
  lemma StopLeavesConnectorCharging(log: seq<Event>, between: seq<Event>, st: string, c: int)
    requires forall j :: 0 <= j < |between| ==> !OfConnector(st, c)(between[j])
    ensures var after := Fold(log + [ConnectorIs(st, c, "Charging")] + between + [StationIs(st, "Available")]);
            st in after && after[st].status == "Available" && c in after[st].connectors && after[st].connectors[c] == "Charging"
  {
    var started := log + [ConnectorIs(st, c, "Charging")] + between;
    LastAtJoint(log, ConnectorIs(st, c, "Charging"), between, OfConnector(st, c));
    ConnectorIsLastWrite(started, st, c, |log|);
    StopKeepsConnectors(started, st);
  }

  lemma ChargingAfterStop(s: State, log: seq<Event>, st: string, c: int)
    requires s.Valid() && s.log == log + [ConnectorIs(st, c, "Charging")] + [StationIs(st, "Available")]
    ensures var known := ValuesOf(s.stations);
            st in known && known[st].status == "Available" && c in known[st].connectors && known[st].connectors[c] == "Charging"
  {
    assert s.log == log + [ConnectorIs(st, c, "Charging")] + [] + [StationIs(st, "Available")];
    StopLeavesConnectorCharging(log, [], st, c);
  }

  lemma LastAtJoint(log: seq<Event>, e: Event, between: seq<Event>, p: Event -> bool)
    requires p(e) && forall j :: 0 <= j < |between| ==> !p(between[j])
    ensures LastAt(log + [e] + between, |log|, p)
  {
    var all := log + [e] + between;
    forall j | |log| < j < |all| ensures !p(all[j]) {
      assert all[j] == between[j - |log| - 1];
    }
  }
}
