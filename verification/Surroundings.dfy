/** What a run has no hold on: disk, network and visitors. Anything in it may fail at any time. */
module Surroundings {
  class Environment {
    /** How often something failed, and how many objects were asked for. */
    var faults: nat
    var downloads: nat

    constructor ()
      ensures faults == 0 && downloads == 0
    {
      faults, downloads := 0, 0;
    }

    /** Whether the next step fails. */
    method Fails() returns (failed: bool)
      modifies this`faults
      ensures faults == old(faults) + if failed then 1 else 0
    {
      failed := *;
      if failed {
        faults := faults + 1;
      }
    }
  }
}
