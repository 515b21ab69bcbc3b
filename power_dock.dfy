// The battery level of the Onion Power Dock, as `convertBatteryInputsToLevel`
// reads it from the two level outputs of the dock's battery indicator IC
// (GPIO 16 as `level0`, GPIO 18 as `level1`).
module PowerDock {

  /** `POWERDOCK_MAX_BATTERY_LEVEL`: four quarters of a full battery. */
  const MaxBatteryLevel: int := 4

  /** A value a GPIO read reports for a pin: low or high. */
  predicate IsLogicLevel(v: int)
  {
    v == 0 || v == 1
  }

  /** `convertBatteryInputsToLevel`: the battery level in quarters, 1..4, that the two
      inputs encode, or 0 when either input is not a logic level. */
  function ConvertBatteryInputsToLevel(level0: int, level1: int): (level: int)
    ensures 0 <= level <= MaxBatteryLevel
    ensures level == 0 <==> !(IsLogicLevel(level0) && IsLogicLevel(level1))
  {
    if level1 == 1 && level0 == 0 then 4
    else if level1 == 1 && level0 == 1 then 3
    else if level1 == 0 && level0 == 1 then 2
    else if level1 == 0 && level0 == 0 then 1
    else 0
  }

  /** The indicator outputs (level0, level1) for a battery level: the truth table of the
      dock read from the level column. */
  function IndicatorOutputs(level: int): (inputs: (int, int))
    requires 1 <= level <= MaxBatteryLevel
    ensures IsLogicLevel(inputs.0) && IsLogicLevel(inputs.1)
    ensures inputs.1 == 1 <==> level >= 3
  {
    if level == 4 then (0, 1)
    else if level == 3 then (1, 1)
    else if level == 2 then (1, 0)
    else (0, 0)
  }

  /** Every level the indicator shows is read back as that level. */
  lemma LevelRoundTrip(level: int)
    requires 1 <= level <= MaxBatteryLevel
    ensures var (level0, level1) := IndicatorOutputs(level);
      ConvertBatteryInputsToLevel(level0, level1) == level
  {
  }

  /** Every pair of logic levels is the indicator's output for the level it is read as. */
  lemma {:induction false} InputsRoundTrip(level0: int, level1: int)
    requires IsLogicLevel(level0) && IsLogicLevel(level1)
    ensures 1 <= ConvertBatteryInputsToLevel(level0, level1) <= MaxBatteryLevel
    ensures IndicatorOutputs(ConvertBatteryInputsToLevel(level0, level1)) == (level0, level1)
  {
  }

  /** The four valid input pairs give four different levels. */
  lemma {:induction false} DistinctLevels(a0: int, a1: int, b0: int, b1: int)
    requires IsLogicLevel(a0) && IsLogicLevel(a1) && IsLogicLevel(b0) && IsLogicLevel(b1)
    requires ConvertBatteryInputsToLevel(a0, a1) == ConvertBatteryInputsToLevel(b0, b1)
    ensures a0 == b0 && a1 == b1
  {
    InputsRoundTrip(a0, a1);
    InputsRoundTrip(b0, b1);
  }
}
