/** utils/volume_lock.go: the volumes with an operation under way. */
module VolumeLocking {

  class VolumeLocks {
    var locks: set<string>

    constructor ()
      ensures locks == {}
    {
      locks := {};
    }

    /** Runs under the mutex, so it is one step. */
    method TryAcquire(volumeID: string) returns (acquired: bool)
      modifies this
      ensures acquired <==> volumeID !in old(locks)
      ensures locks == old(locks) + {volumeID}
    {
      if volumeID in locks {
        return false;
      }
      locks := locks + {volumeID};
      return true;
    }

    method Release(volumeID: string)
      modifies this
      ensures locks == old(locks) - {volumeID}
    {
      locks := locks - {volumeID};
    }
  }
}
