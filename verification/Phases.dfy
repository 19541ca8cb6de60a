/** What a volume reports of itself. */
module Phases {

  datatype VolumePhase = Bootstrapping | Live | Rescanning | Snapshot | Offline | Failed(reason: string)

  /** The volume claims that its index follows, or will soon follow, its changes. */
  predicate ClaimsTracking(phase: VolumePhase) {
    phase.Bootstrapping? || phase.Live? || phase.Rescanning?
  }
}
