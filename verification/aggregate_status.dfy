/**
 * The status an item derives from its own rules
 * (src/main/java/ru/keich/mon/servicemanager/item/AggregateStatus.java):
 * one time stamp per status, recording when the item last entered it, and
 * the status it entered last. A status entered within the last ten seconds
 * still counts, so a short drop below it does not show at once.
 *
 * Instants are whole seconds, and the clock is a `now` parameter.
 */
module AggregateStatuses {
  import opened Wrappers
  import opened Status

  /** How long a status entered earlier still counts (the `minusSeconds(10)`). */
  const WindowSeconds := 10

  /** The stamp is present and not older than the horizon. */
  predicate IsRecent(stamp: Option<int>, horizon: int)
  {
    stamp.Some? && stamp.value >= horizon
  }

  /** The highest index whose stamp is recent, 0 when there is none. */
  function RecentMax(stamps: seq<Option<int>>, horizon: int): (r: nat)
    ensures r == 0 || (r < |stamps| && IsRecent(stamps[r], horizon))
    ensures forall j :: r < j < |stamps| ==> !IsRecent(stamps[j], horizon)
  {
    if |stamps| == 0 then 0
    else if IsRecent(stamps[|stamps| - 1], horizon) then |stamps| - 1
    else RecentMax(stamps[..|stamps| - 1], horizon)
  }

  /** What `getMax` reports: the higher of the last status and the highest recently entered one. */
  function MaxAt(stamps: seq<Option<int>>, lastStatus: int, now: int): BaseStatus
  {
    var recent := RecentMax(stamps, now - WindowSeconds);
    FromInteger(if recent > lastStatus then recent else lastStatus)
  }

  /** The report is never below the status entered last. */
  lemma MaxAtNotBelowLast(stamps: seq<Option<int>>, lastStatus: int, now: int)
    requires 0 <= lastStatus < Length
    ensures Ordinal(MaxAt(stamps, lastStatus, now)) >= lastStatus
  {
  }

  /** A status entered within the window is reported at least as that status. */
  lemma RecentStatusHeld(stamps: seq<Option<int>>, lastStatus: int, now: int, s: BaseStatus)
    requires |stamps| == Length && 0 <= lastStatus < Length
    requires IsRecent(stamps[Ordinal(s)], now - WindowSeconds)
    ensures LessThenOrEqual(s, MaxAt(stamps, lastStatus, now))
  {
  }

  /**
   * The report is the status entered last, or a higher one entered within
   * the window: once nothing higher is recent, the report settles on the
   * last status.
   */
  lemma MaxAtIsLastOrRecent(stamps: seq<Option<int>>, lastStatus: int, now: int)
    requires |stamps| == Length && 0 <= lastStatus < Length
    ensures var r := MaxAt(stamps, lastStatus, now);
            Ordinal(r) == lastStatus || (Ordinal(r) > lastStatus && IsRecent(stamps[Ordinal(r)], now - WindowSeconds))
    ensures (forall j :: lastStatus < j < Length ==> !IsRecent(stamps[j], now - WindowSeconds)) ==>
              Ordinal(MaxAt(stamps, lastStatus, now)) == lastStatus
  {
  }

  /**
   * Entering a status: it is reported at least for the next ten seconds,
   * whatever is entered afterwards, as long as its stamp is not overwritten.
   */
  lemma SetStatusHeld(stamps: seq<Option<int>>, s: BaseStatus, setAt: int, later: seq<Option<int>>, lastStatus: int, now: int)
    requires |stamps| == Length && |later| == Length && 0 <= lastStatus < Length
    requires later[Ordinal(s)] == stamps[Ordinal(s) := Some(setAt)][Ordinal(s)]
    requires setAt <= now <= setAt + WindowSeconds
    ensures LessThenOrEqual(s, MaxAt(later, lastStatus, now))
  {
    RecentStatusHeld(later, lastStatus, now, s);
  }

  class AggregateStatus {
    const statuses: array<Option<int>>
    var lastStatus: int

    ghost predicate Valid()
      reads this
    {
      statuses.Length == Length && 0 <= lastStatus < Length
    }

    /** A new aggregate starts as CLEAR entered now. */
    constructor(now: int)
      ensures Valid() && fresh(statuses)
      ensures lastStatus == 0
      ensures statuses[..] == [Some(now), None, None, None, None, None]
    {
      var stamps := new Option<int>[Length](_ => None);
      stamps[0] := Some(now);
      statuses := stamps;
      lastStatus := 0;
    }

    /** The copy constructor: the same stamps in a fresh array, and the same last status. */
    constructor Copy(obj: AggregateStatus)
      requires obj.Valid()
      ensures Valid() && fresh(statuses)
      ensures statuses[..] == obj.statuses[..]
      ensures lastStatus == obj.lastStatus
    {
      var stamps := new Option<int>[Length](_ => None);
      for i := 0 to Length
        invariant stamps[..i] == obj.statuses[..i]
      {
        stamps[i] := obj.statuses[i];
      }
      statuses := stamps;
      lastStatus := obj.lastStatus;
    }

    /** `set`: the status becomes the last one and its stamp is now. */
    method Set(status: BaseStatus, now: int)
      requires Valid()
      modifies this, statuses
      ensures Valid()
      ensures lastStatus == Ordinal(status)
      ensures statuses[..] == old(statuses[..])[Ordinal(status) := Some(now)]
    {
      lastStatus := Ordinal(status);
      statuses[lastStatus] := Some(now);
    }

    /** `getMax`: the scan over the stamps computes `MaxAt`. */
    method GetMax(now: int) returns (r: BaseStatus)
      requires Valid()
      ensures r == MaxAt(statuses[..], lastStatus, now)
    {
      var horizon := now - WindowSeconds;
      var maxStatus := 0;
      for i := 0 to Length
        invariant maxStatus == RecentMax(statuses[..i], horizon)
        invariant maxStatus == 0 || maxStatus < i
      {
        assert statuses[..i + 1][..i] == statuses[..i];
        var stamp := statuses[i];
        if stamp.None? {
          continue;
        }
        if stamp.value >= horizon && maxStatus < i {
          maxStatus := i;
        }
      }
      assert statuses[..Length] == statuses[..];
      r := FromInteger(if maxStatus > lastStatus then maxStatus else lastStatus);
    }
  }
}
