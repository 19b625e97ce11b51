/**
  The device's notification scheduler (expo-notifications), seen only through
  the two calls the chime screen makes: schedule a DAILY notification, and
  cancel a scheduled one by its identifier.  Either call may fail.
 */
module Notifications {
  import opened Wrappers
  import opened Decimal

  /** A DAILY trigger firing at `hour`:`minute` on `channel`, with the given title. */
  datatype DailyNotification = DailyNotification(title: string, channel: string, hour: int, minute: int)

  /** A call the chime screen makes to the scheduler. */
  datatype Request = ScheduleDaily(notification: DailyNotification) | CancelScheduled(identifier: string)

  const IdentifierPrefix := "notification-"

  function IdentifierFor(serial: nat): string {
    IdentifierPrefix + NatToString(serial)
  }

  /** The serial number an identifier of this scheduler carries, if it is one of its identifiers. */
  function SerialOf(identifier: string): Option<nat> {
    if |IdentifierPrefix| <= |identifier| && identifier[..|IdentifierPrefix|] == IdentifierPrefix
    then ParseNat(identifier[|IdentifierPrefix|..])
    else None
  }

  lemma SerialOfIdentifierFor(serial: nat)
    ensures SerialOf(IdentifierFor(serial)) == Some(serial)
  {
    var s := IdentifierFor(serial);
    assert s[..|IdentifierPrefix|] == IdentifierPrefix;
    assert s[|IdentifierPrefix|..] == NatToString(serial);
    ParseNatToString(serial);
  }

  predicate IssuedBefore(identifier: string, serial: nat) {
    SerialOf(identifier).Some? && SerialOf(identifier).value < serial
  }

  /**
    The scheduler as the chime screen relies on it: `Schedule` either returns a
    non-empty identifier that no live notification holds, or fails and
    schedules nothing; a successful `Cancel` removes exactly that
    notification, a failed one removes nothing.  `calls` records every call
    in order.  The bodies stand in for the device: scheduling fails while
    notifications are not permitted, identifiers carry a serial number, and
    cancelling an identifier that is not live fails.
   */
  class Scheduler {
    var permitted: bool
    var serial: nat
    var live: map<string, DailyNotification>
    var calls: seq<Request>

    ghost predicate Valid()
      reads this
    {
      forall x :: x in live ==> IssuedBefore(x, serial)
    }

    constructor (permitted: bool)
      ensures Valid() && this.permitted == permitted
      ensures live == map[] && calls == []
    {
      this.permitted := permitted;
      serial := 0;
      live := map[];
      calls := [];
    }

    method Schedule(n: DailyNotification) returns (r: Option<string>)
      requires Valid()
      modifies this
      ensures Valid() && permitted == old(permitted)
      ensures calls == old(calls) + [ScheduleDaily(n)]
      ensures r.Some? ==> r.value != "" && r.value !in old(live) && live == old(live)[r.value := n]
      ensures r.None? ==> live == old(live)
    {
      calls := calls + [ScheduleDaily(n)];
      if permitted {
        var x := IdentifierFor(serial);
        SerialOfIdentifierFor(serial);
        live := live[x := n];
        serial := serial + 1;
        r := Some(x);
      } else {
        r := None;
      }
    }

    method Cancel(x: string) returns (ok: bool)
      requires Valid()
      modifies this
      ensures Valid() && permitted == old(permitted)
      ensures calls == old(calls) + [CancelScheduled(x)]
      ensures live == if ok then old(live) - {x} else old(live)
    {
      calls := calls + [CancelScheduled(x)];
      ok := x in live;
      if ok {
        live := live - {x};
      }
    }
  }
}
