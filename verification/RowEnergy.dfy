/**
 * When the energy of a session row is right: over every wire of frames, in order or not, handled one after the other while
 * any of the calls made for them may fail.
 */
module RowEnergy {
  import opened EndToEnd
  import opened Handlers
  import opened Meter
  import opened Options
  import opened SessionTable
  import Simulator

  /** The meterStart of the last Start of tx with no Stop of tx after it. */
  function OpenStart(wire: seq<Frame>, tx: string): (m: Option<int64>) {
    if wire == [] then None
    else
      match wire[|wire| - 1]
      case Start(_, t, m) => if t == tx then Some(m) else OpenStart(wire[..|wire| - 1], tx)
      case Reading(_, _, _) => OpenStart(wire[..|wire| - 1], tx)
      case Stop(_, t, _) => if t == tx then None else OpenStart(wire[..|wire| - 1], tx)
  }

  /** The frame is a Stop of tx with a Start of tx open before it. */
  predicate StopsOpen(wire: seq<Frame>, f: Frame, tx: string) { f.Stop? && f.tx == tx && OpenStart(wire, tx).Some? }

  /** The energy of the last Stop of tx that had a Start open, and 0 when there was none: what the row should hold. */
  function LastGrowth(wire: seq<Frame>, tx: string): (energyWh: int) {
    if wire == [] then 0
    else
      var p, f := wire[..|wire| - 1], wire[|wire| - 1];
      if StopsOpen(p, f, tx) then EnergyWh(f.meterStop, OpenStart(p, tx).value) else LastGrowth(p, tx)
  }

  /** The sessions table has a row of tx: some Start of tx was recorded. */
  predicate HasRow(wire: seq<Frame>, fates: Fates, tx: string) {
    wire != [] &&
    var n := |wire| - 1;
    || (wire[n].Start? && wire[n].tx == tx && tx != "" && fates(n).start.done)
    || HasRow(wire[..n], fates, tx)
  }

  /** The frame at the end of the wire is a Stop of tx that reaches the row. */
  predicate StopRecorded(wire: seq<Frame>, fates: Fates, tx: string)
    requires wire != []
  {
    var n := |wire| - 1;
    wire[n].Stop? && wire[n].tx == tx && fates(n).stopDone && HasRow(wire[..n], fates, tx)
  }

  /** The last Stop of tx that had a Start open, if any, reached the row. */
  predicate GrowthRecorded(wire: seq<Frame>, fates: Fates, tx: string) {
    wire == [] ||
    var p, f := wire[..|wire| - 1], wire[|wire| - 1];
    if StopsOpen(p, f, tx) then StopRecorded(wire, fates, tx) else GrowthRecorded(p, fates, tx)
  }

  /** No Stop of tx has reached the row since the last one that had a Start open. */
  predicate Untouched(wire: seq<Frame>, fates: Fates, tx: string) {
    wire == [] ||
    var p, f := wire[..|wire| - 1], wire[|wire| - 1];
    StopsOpen(p, f, tx) || (!StopRecorded(wire, fates, tx) && Untouched(p, fates, tx))
  }

  /** What the store and the row of tx hold. */
  ghost predicate Mirrors(v: Server, wire: seq<Frame>, fates: Fates, tx: string) {
    && (tx in v.store <==> OpenStart(wire, tx).Some?)
    && (tx in v.store ==> v.store[tx].meterStart == OpenStart(wire, tx).value)
    && (tx in v.table.rows <==> HasRow(wire, fates, tx))
    && (tx in v.table.rows ==> tx != "")
    && (GrowthRecorded(wire, fates, tx) ==>
          if tx in v.table.rows
          then v.table.rows[tx].energyWh == if Untouched(wire, fates, tx) then LastGrowth(wire, tx) else 0
          else LastGrowth(wire, tx) == 0)
  }

  lemma HandleMirrors(v: Server, wire: seq<Frame>, fates: Fates, f: Frame, tx: string)
    requires Mirrors(v, wire, fates, tx)
    ensures Mirrors(Handle(v, f, fates(|wire|)), wire + [f], fates, tx)
  {
    assert (wire + [f])[..|wire|] == wire;
  }

  lemma {:induction false} WireMirrors(wire: seq<Frame>, fates: Fates, tx: string)
    ensures Mirrors(Handled(wire, fates), wire, fates, tx)
  {
    if wire != [] {
      var n := |wire| - 1;
      WireMirrors(wire[..n], fates, tx);
      assert wire == wire[..n] + [wire[n]];
      HandleMirrors(Handled(wire[..n], fates), wire[..n], fates, wire[n], tx);
    }
  }

  /**
   * For every wire and whatever fails, as long as the last Stop of tx that had something to stop was recorded: the row of tx
   * holds that Stop's energy if and only if no other Stop of tx was recorded since, or that energy is 0 anyway.
   */
  lemma RowEnergyRightIff(wire: seq<Frame>, fates: Fates, tx: string)
    requires GrowthRecorded(wire, fates, tx) && tx in Handled(wire, fates).table.rows
    ensures Handled(wire, fates).table.rows[tx].energyWh == LastGrowth(wire, tx) <==>
            Untouched(wire, fates, tx) || LastGrowth(wire, tx) == 0
  {
    WireMirrors(wire, fates, tx);
  }

  /** A Stop that is not recorded leaves every row as it was. */
  lemma UnrecordedStopKeepsRows(wire: seq<Frame>, fates: Fates, f: Frame)
    requires f.Stop? && !StopRecorded(wire + [f], fates, f.tx)
    ensures Handled(wire + [f], fates).table == Handled(wire, fates).table
  {
    assert (wire + [f])[..|wire|] == wire;
    WireMirrors(wire, fates, f.tx);
  }

  /**
   * Two Stops of one transaction in a row, both recorded: the row falls to 0, which is wrong unless the first one's energy
   * was 0, and the second bills nothing.
   */
  lemma RepeatedStopZeroesTheRow(wire: seq<Frame>, fates: Fates, first: Frame, second: Frame)
    requires first.Stop? && second.Stop? && first.tx == second.tx
    requires StopRecorded(wire + [first], fates, first.tx) && StopRecorded(wire + [first] + [second], fates, first.tx)
    requires OpenStart(wire, first.tx).Some?
    ensures var once, twice := wire + [first], wire + [first] + [second];
            && first.tx in Handled(once, fates).table.rows && first.tx in Handled(twice, fates).table.rows
            && Handled(once, fates).table.rows[first.tx].energyWh == LastGrowth(once, first.tx)
            && Handled(twice, fates).table.rows[first.tx].energyWh == 0
            && (Handled(twice, fates).table.rows[first.tx].energyWh == LastGrowth(twice, first.tx) <==> LastGrowth(once, first.tx) == 0)
            && Handled(twice, fates).ledger == Handled(once, fates).ledger
  {
    var once, twice := wire + [first], wire + [first] + [second];
    assert twice[..|once|] == once && once[..|wire|] == wire;
    WireMirrors(once, fates, first.tx);
    WireMirrors(twice, fates, first.tx);
    RowEnergyRightIff(once, fates, first.tx);
    RowEnergyRightIff(twice, fates, first.tx);
  }
}
