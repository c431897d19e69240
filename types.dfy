/** Application values shared by the history store and the telemetry loop. */
module Types {

  import opened Numeric

  /** The shared operating-mode flag that selects the sampling cadence. */
  datatype Mode = Normal | LowPower

  /** `AppSettings`: the two sampling periods the telemetry loop reads, and the
      remaining user preferences, which no modelled code inspects, kept as one
      opaque value. */
  datatype AppSettings = AppSettings(refreshRateMs: U64, lowPowerRateMs: U64, preferences: string)
}
