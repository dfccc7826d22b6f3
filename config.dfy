/** The prod configuration constants the alerting rules use. */
module Config {
  /** How long a "date" (or "calendar") reaction silences, in seconds. */
  const SuppressDurationDateS := 86400
  /** How long a "stopwatch" reaction silences, in seconds. */
  const SuppressDurationStopwatchS := 10800
  /** A node down for longer than this is abandoned by the daily report. */
  const AbandonedThresholdMs := 86400 * 1000 * 14
  /** Downtime after which a single node alerts. */
  const AlertTimeThresholdMs := 300000
  /** Downtime after which a hub-down group member is collected. */
  const HubDownAlertTimeMs := 180000
  const HubWatcherMode := true
  /** Removed nodes in one cycle that start a hub-down group, and collected
      members that escalate it. */
  const HubDownNodeQty := 5
  /** Collected members from which the announcement also notifies the channel. */
  const HubDownRaiseQty := 25
  /** How many routers the root-cause guess is computed from. */
  const RootCauseSample := 10
  /** The silenced cache at start-up. */
  const InitialSilencedCache: seq<string> := ["10.69.3.32", "10.69.48.1"]
  /** Ids never monitored outside a hub-down event. */
  const ExcludedFromMonitoring: seq<string> := []
  const NodeMapPrefix := "https://www.nycmesh.net/map/nodes/"
  /** The placeholder root cause when the guess fails. */
  const NotSure := "not sure lol"
}
