/** The one setting both implementations share (`SAMPLES` in src/main.rs and in
    prometheus_ping.py). */
module Settings {

  /** Capacity of a target's latency history; in the Rust collector also the length of the
      averaging window, in seconds. */
  const SAMPLES: nat := 30
}
