/**
 * The bookkeeping of one replication run from a neighbour node
 * (src/main/java/ru/keich/mon/servicemanager/entity/EntityReplicationState.java):
 * whether a run is active or the first one, the range of versions received,
 * and how many added and deleted entities were counted. Instants are whole
 * seconds passed in as `now`.
 */
module ReplicationStates {
  import opened Wrappers
  import opened Decimal

  class EntityReplicationState {
    var active: bool
    var first: bool
    var neighborStartTime: string
    var maxVersion: int
    var minVersion: int
    var added: nat
    var deleted: nat
    var startTime: int
    var endTime: int

    /** The versions received since the last reset, and since the last first run. */
    ghost var sinceReset: set<int>
    ghost var sinceFirstRun: set<int>

    /**
     * The lowest version is the least received since the last reset
     * (`Long.MAX_VALUE` when none), the highest is the greatest received since the first run
     * (0 when none, and never below 0).
     */
    ghost predicate Valid()
      reads this
    {
      (forall v :: v in sinceReset ==> minVersion <= v) &&
      (minVersion == LongMax || minVersion in sinceReset) &&
      minVersion <= LongMax &&
      sinceReset <= sinceFirstRun &&
      (forall v :: v in sinceFirstRun ==> v <= maxVersion) &&
      (maxVersion == 0 || maxVersion in sinceFirstRun) &&
      maxVersion >= 0
    }

    /** The initial state is the state after `setFirstRunTrue`, not active. */
    constructor(now: int)
      ensures Valid()
      ensures !active && first && neighborStartTime == ""
      ensures maxVersion == 0 && minVersion == LongMax && added == 0 && deleted == 0
      ensures startTime == now && endTime == now
    {
      active := false;
      first := true;
      neighborStartTime := "";
      maxVersion := 0;
      minVersion := LongMax;
      added := 0;
      deleted := 0;
      startTime := now;
      endTime := now;
      sinceReset := {};
      sinceFirstRun := {};
    }

    method SetNeighborStartTime(time: string)
      modifies this
      ensures neighborStartTime == time
      ensures active == old(active) && first == old(first) && maxVersion == old(maxVersion) && minVersion == old(minVersion)
      ensures added == old(added) && deleted == old(deleted) && startTime == old(startTime) && endTime == old(endTime)
      ensures sinceReset == old(sinceReset) && sinceFirstRun == old(sinceFirstRun)
    {
      neighborStartTime := time;
    }

    /** `setFirstRunTrue`: a first run again, forgetting the neighbour's start time and every version. */
    method SetFirstRunTrue()
      modifies this
      ensures Valid()
      ensures first && neighborStartTime == ""
      ensures maxVersion == 0 && minVersion == LongMax && added == 0 && deleted == 0
      ensures active == old(active) && startTime == old(startTime) && endTime == old(endTime)
    {
      first := true;
      neighborStartTime := "";
      maxVersion := 0;
      minVersion := LongMax;
      sinceFirstRun := {};
      Reset();
    }

    method SetFirstRunFalse()
      modifies this
      ensures !first
      ensures active == old(active) && neighborStartTime == old(neighborStartTime)
      ensures maxVersion == old(maxVersion) && minVersion == old(minVersion)
      ensures added == old(added) && deleted == old(deleted) && startTime == old(startTime) && endTime == old(endTime)
      ensures sinceReset == old(sinceReset) && sinceFirstRun == old(sinceFirstRun)
    {
      first := false;
    }

    /** `setActiveTrue`: the run starts now. */
    method SetActiveTrue(now: int)
      modifies this
      ensures active && startTime == now
      ensures first == old(first) && neighborStartTime == old(neighborStartTime)
      ensures maxVersion == old(maxVersion) && minVersion == old(minVersion)
      ensures added == old(added) && deleted == old(deleted) && endTime == old(endTime)
      ensures sinceReset == old(sinceReset) && sinceFirstRun == old(sinceFirstRun)
    {
      active := true;
      startTime := now;
    }

    /** `setActiveFalse`: the run ends now. */
    method SetActiveFalse(now: int)
      modifies this
      ensures !active && endTime == now
      ensures first == old(first) && neighborStartTime == old(neighborStartTime)
      ensures maxVersion == old(maxVersion) && minVersion == old(minVersion)
      ensures added == old(added) && deleted == old(deleted) && startTime == old(startTime)
      ensures sinceReset == old(sinceReset) && sinceFirstRun == old(sinceFirstRun)
    {
      active := false;
      endTime := now;
    }

    /**
     * `updateVersion`: the lowest version only falls and the highest only
     * rises; afterwards the received version lies between them.
     */
    method UpdateVersion(version: int)
      requires Valid() && version <= LongMax
      modifies this
      ensures Valid()
      ensures sinceReset == old(sinceReset) + {version} && sinceFirstRun == old(sinceFirstRun) + {version}
      ensures minVersion <= old(minVersion) && maxVersion >= old(maxVersion)
      ensures minVersion <= version <= maxVersion
      ensures minVersion == (if version < old(minVersion) then version else old(minVersion))
      ensures maxVersion == (if version > old(maxVersion) then version else old(maxVersion))
      ensures active == old(active) && first == old(first) && neighborStartTime == old(neighborStartTime)
      ensures added == old(added) && deleted == old(deleted) && startTime == old(startTime) && endTime == old(endTime)
    {
      if minVersion > version {
        minVersion := version;
      }
      if maxVersion < version {
        maxVersion := version;
      }
      sinceReset := sinceReset + {version};
      sinceFirstRun := sinceFirstRun + {version};
    }

    /** `incrementCounters`: a live entity counts as added, a deleted one as deleted. */
    method IncrementCounters(deletedOn: Option<int>)
      modifies this
      ensures deletedOn.None? ==> added == old(added) + 1 && deleted == old(deleted)
      ensures deletedOn.Some? ==> deleted == old(deleted) + 1 && added == old(added)
      ensures active == old(active) && first == old(first) && neighborStartTime == old(neighborStartTime)
      ensures maxVersion == old(maxVersion) && minVersion == old(minVersion)
      ensures startTime == old(startTime) && endTime == old(endTime)
      ensures sinceReset == old(sinceReset) && sinceFirstRun == old(sinceFirstRun)
    {
      if deletedOn.None? {
        added := added + 1;
      } else {
        deleted := deleted + 1;
      }
    }

    /** `reset`: forgets the lowest version and the counters, and keeps the highest version. */
    method Reset()
      requires (forall v :: v in sinceFirstRun ==> v <= maxVersion) && (maxVersion == 0 || maxVersion in sinceFirstRun) && maxVersion >= 0
      modifies this
      ensures Valid()
      ensures minVersion == LongMax && added == 0 && deleted == 0
      ensures maxVersion == old(maxVersion) && sinceFirstRun == old(sinceFirstRun) && sinceReset == {}
      ensures active == old(active) && first == old(first) && neighborStartTime == old(neighborStartTime)
      ensures startTime == old(startTime) && endTime == old(endTime)
    {
      minVersion := LongMax;
      added := 0;
      deleted := 0;
      sinceReset := {};
    }
  }
}
