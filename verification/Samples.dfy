/** What host and interface exchange: levels of the field with their durations. */
module Samples {
  /** One period of the 125 kHz carrier. */
  const CARRIER_US: int := 8

  datatype Sample = Sample(lengthUs: int, isHigh: bool)
}
