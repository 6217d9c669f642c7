/** Health states (failover/units.py): a health state is a boolean. */
module Units {

  type HealthState = bool

  /** `ok` */
  const Healthy: HealthState := true

  /** `fail` */
  const Unhealthy: HealthState := false
}
