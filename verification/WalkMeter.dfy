/** The meter of the metadata-only walk (crates/kitrove-adapter-api/src/policy.rs:331-364). */
module WalkMeter {
  import opened Bytes

  /** The standalone meter; a walk charges it one unit for every listed entry. */
  class LocalRootHookMeter {
    const maxDiscoveryEntries: nat
    var discoveryEntries: nat

    constructor (maxDiscoveryEntries: nat)
      ensures this.maxDiscoveryEntries == maxDiscoveryEntries && discoveryEntries == 0
    {
      this.maxDiscoveryEntries := maxDiscoveryEntries;
      discoveryEntries := 0;
    }

    function Remaining(): nat
      reads this
    {
      Max(maxDiscoveryEntries - discoveryEntries, 0)
    }

    method TryDiscoveryEntry() returns (granted: bool)
      modifies this
      ensures granted == (old(Remaining()) > 0)
      ensures discoveryEntries == old(discoveryEntries) + if granted then 1 else 0
    {
      if discoveryEntries >= maxDiscoveryEntries {
        return false;
      }
      discoveryEntries := discoveryEntries + 1;
      return true;
    }
  }
}
