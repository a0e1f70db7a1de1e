/**
 * Go's int64 and the energy subtraction of the StopTransaction handler
 * (backend/services/ocpp-server/internal/handlers/stop_transaction.go). Meter registers are whole Wh.
 */
module Meter {

  const MIN_INT64: int := -0x8000_0000_0000_0000
  const MAX_INT64: int := 0x7FFF_FFFF_FFFF_FFFF

  type int64 = x: int | MIN_INT64 <= x <= MAX_INT64

  /** Two's-complement wrap-around of a mathematical integer. */
  function Wrap64(x: int): (r: int64) {
    (x - MIN_INT64) % 0x1_0000_0000_0000_0000 + MIN_INT64
  }

  /** The energy a stop reports: the register difference when it grew, otherwise 0. */
  function EnergyWh(meterStop: int64, meterStart: int64): (r: int64) {
    if meterStop > meterStart then Wrap64(meterStop - meterStart) else 0
  }

  /** What the handler is after: the growth of the register, never negative. */
  function Growth(meterStop: int64, meterStart: int64): (r: nat) {
    if meterStop > meterStart then meterStop - meterStart else 0
  }

  /** The int64 subtraction is exact if and only if the true difference fits; when it does not, the result is negative. */
  lemma EnergyExactIff(meterStop: int64, meterStart: int64)
    ensures EnergyWh(meterStop, meterStart) == Growth(meterStop, meterStart) <==> meterStop - meterStart <= MAX_INT64
    ensures meterStop - meterStart > MAX_INT64 ==> EnergyWh(meterStop, meterStart) == meterStop - meterStart - 0x1_0000_0000_0000_0000 < 0
    ensures meterStart >= 0 ==> EnergyWh(meterStop, meterStart) == Growth(meterStop, meterStart)
  {
    if meterStop > meterStart {
      var d := meterStop - meterStart;
      if d > MAX_INT64 {
        assert (d - MIN_INT64) % 0x1_0000_0000_0000_0000 == d - MIN_INT64 - 0x1_0000_0000_0000_0000;
      } else {
        assert (d - MIN_INT64) % 0x1_0000_0000_0000_0000 == d - MIN_INT64;
      }
    }
  }

  /** A register that starts below zero can overflow: the reported energy is then negative. */
  lemma NegativeStartOverflows()
    ensures EnergyWh(MAX_INT64, -1) == MIN_INT64
  {
    EnergyExactIff(MAX_INT64, -1);
  }
}
