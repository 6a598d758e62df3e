/** Value wrappers shared by the model of the delay characterizer, and the
    fatal error kinds that its `debug.error` / `debug.check` calls and its
    uncaught Python exceptions stand for. */
module Base {

  datatype Option<+T> = None | Some(value: T)

  /** A computation that either produces a value or stops the run. */
  datatype Result<+T> = Ok(value: T) | Err(error: Error)

  /** A check that either passes or stops the run. */
  datatype Outcome = Pass | Fail(error: Error)

  /** A pin level as the characterizer stores it in its per-cycle lists. */
  type Bit = b: int | 0 <= b <= 1

  datatype Error =
    // check_arguments
    | ProbeAddressNotBinary
    | ProbeAddressWrongLength
    | ProbeDataInvalid
    // add_data / add_address and the inverse address of create_test_cycles
    | InvalidDataWordSize
    | NonBinaryData
    | InvalidAddressSize
    | NonBinaryAddress
    // the two period searches
    | FeasiblePeriodTimeout
    | MinPeriodTimeout
    // a power measurement that came back as the failure marker is scaled
    // by 1e3, which raises a type error in the source
    | PowerNotNumeric
    // run_power_simulation
    | LeakageNotMeasured
    // analyze
    | NonPositiveDelay
    | SimulationFailed(slew: real, load: real)
    | EmptySweep

  /** The larger of two reals. */
  function MaxReal(a: real, b: real): (m: real)
    ensures m >= a && m >= b && (m == a || m == b)
  {
    if a >= b then a else b
  }

  /** Python's `max` of a non-empty list. */
  function Max(s: seq<real>): (m: real)
    requires |s| > 0
    ensures m in s
    ensures forall x :: x in s ==> x <= m
  {
    if |s| == 1 then s[0]
    else
      var rest := Max(s[1..]);
      assert forall x :: x in s ==> x == s[0] || x in s[1..];
      MaxReal(s[0], rest)
  }

  /** 2 to the power k, as a real. */
  function Pow2(k: nat): (r: real)
    ensures r >= 1.0
  {
    if k == 0 then 1.0 else 2.0 * Pow2(k - 1)
  }
}
