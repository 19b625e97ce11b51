/**
  What one press of a chime's switch does (`togglechime`), as a function of
  the table before the press and of the scheduler's answer.  The press flips
  the switch at once, then asks the scheduler on the strength of the chime as
  it was before the flip, and records the scheduler's state in the table only
  when the scheduler call succeeded.
 */
module Toggling {
  import opened Wrappers
  import opened Chimes
  import opened Notifications

  const ChannelId := "new_chimes_again_7"

  /** The notification `enableChime` schedules for an hour: daily, on the hour. */
  function ChimeNotification(hour: int): (n: DailyNotification)
    ensures n.hour == hour && n.minute == 0
  {
    DailyNotification("The time is " + FormatTime12Hour(hour), ChannelId, hour, 0)
  }

  /** JavaScript truthiness of `chime.identifier`: null and "" are both falsy. */
  predicate HasIdentifier(c: Chime): (b: bool)
    ensures b <==> c.identifier.Some? && c.identifier.value != ""
  {
    c.identifier.Some? && c.identifier.value != ""
  }

  /** The scheduler call a press makes, decided by the chime as it was before the flip. */
  function RequestFor(cs: seq<Chime>, id: string): (r: Option<Request>)
    ensures r.None? <==> Find(cs, id).None? || (Find(cs, id).value.enabled && !HasIdentifier(Find(cs, id).value))
    ensures r.Some? && r.value.ScheduleDaily? <==> Find(cs, id).Some? && !Find(cs, id).value.enabled
    ensures r.Some? && r.value.ScheduleDaily? ==>
      r.value.notification.hour == Find(cs, id).value.hour && r.value.notification.minute == 0
    ensures r.Some? && r.value.CancelScheduled? ==> Find(cs, id).value.identifier == Some(r.value.identifier)
  {
    match Find(cs, id)
    case None => None
    case Some(c) =>
      if !c.enabled then Some(ScheduleDaily(ChimeNotification(c.hour)))
      else if HasIdentifier(c) then Some(CancelScheduled(c.identifier.value))
      else None
  }

  /** The calls a press sends, in order. */
  function Sent(req: Option<Request>): seq<Request> {
    if req.Some? then [req.value] else []
  }

  /** How a press ended. */
  datatype Outcome = NoCall | Scheduled(identifier: string) | ScheduleFailed | Cancelled | CancelFailed

  /** The outcomes a request can have. */
  predicate Answers(req: Option<Request>, o: Outcome) {
    match req
    case None => o == NoCall
    case Some(ScheduleDaily(_)) => o.Scheduled? || o.ScheduleFailed?
    case Some(CancelScheduled(_)) => o.Cancelled? || o.CancelFailed?
  }

  /** The table after a press with outcome `o`. */
  function Settle(cs: seq<Chime>, id: string, o: Outcome): (r: seq<Chime>)
    ensures |r| == |cs|
    ensures forall i :: 0 <= i < |cs| ==> r[i].id == cs[i].id && r[i].time == cs[i].time && r[i].hour == cs[i].hour
    ensures forall i :: 0 <= i < |cs| && cs[i].id != id ==> r[i] == cs[i]
  {
    var flipped := Flip(cs, id);
    match o
    case Scheduled(x) => SetChime(flipped, id, Some(x), true)
    case Cancelled => SetChime(flipped, id, None, false)
    case _ => flipped
  }

  /** What a press with outcome `o` does to the one chime pressed. */
  function Pressed(c: Chime, o: Outcome): Chime {
    match o
    case Scheduled(x) => c.(enabled := true, identifier := Some(x))
    case Cancelled => c.(enabled := false, identifier := None)
    case _ => c.(enabled := !c.enabled)
  }

  /** `Settle`, one chime at a time: the pressed chimes become `Pressed`, the others stay. */
  lemma SettleAt(cs: seq<Chime>, id: string, o: Outcome, i: int)
    requires 0 <= i < |cs|
    ensures |Settle(cs, id, o)| == |cs|
    ensures Settle(cs, id, o)[i] == if cs[i].id == id then Pressed(cs[i], o) else cs[i]
  {
  }

  /** Only a press whose scheduler call succeeded writes the table to the store. */
  predicate Persists(o: Outcome): (b: bool)
    ensures b <==> !(o.NoCall? || o.ScheduleFailed? || o.CancelFailed?)
  {
    o.Scheduled? || o.Cancelled?
  }

  /** How the scheduler's live notifications change with the outcome of a request. */
  predicate LiveStep(live: map<string, DailyNotification>, req: Option<Request>, o: Outcome,
                     live': map<string, DailyNotification>)
  {
    match o
    case Scheduled(x) =>
      req.Some? && req.value.ScheduleDaily? && x != "" && x !in live
      && live' == live[x := req.value.notification]
    case Cancelled =>
      req.Some? && req.value.CancelScheduled? && live' == live - {req.value.identifier}
    case _ => live' == live
  }

  /** A chime whose switch agrees with its scheduler state. */
  predicate Consistent(c: Chime) {
    c.enabled == c.identifier.Some?
  }

  predicate AllConsistent(cs: seq<Chime>) {
    forall i :: 0 <= i < |cs| ==> Consistent(cs[i])
  }

  /**
    Every identifier the table records names a live notification for that
    chime's hour, and no two chimes record the same identifier.
   */
  predicate Tracked(cs: seq<Chime>, live: map<string, DailyNotification>) {
    (forall i :: 0 <= i < |cs| && cs[i].identifier.Some? ==>
      cs[i].identifier.value in live && live[cs[i].identifier.value] == ChimeNotification(cs[i].hour))
    && DistinctIdentifiers(cs)
  }

  /** No two chimes record the same identifier. */
  predicate DistinctIdentifiers(cs: seq<Chime>) {
    forall i, j :: 0 <= i < j < |cs| && cs[i].identifier.Some? && cs[j].identifier.Some? ==>
      cs[i].identifier.value != cs[j].identifier.value
  }

  // ---------------------------------------------------------------------
  // One press, case by case

  /** Pressing an id that matches no chime calls nothing and changes nothing. */
  lemma ToggleUnknownId(cs: seq<Chime>, id: string)
    requires Find(cs, id).None?
    ensures RequestFor(cs, id) == None
    ensures Settle(cs, id, NoCall) == cs
  {
  }

  /**
    Pressing a disabled chime schedules one daily notification at its hour.
    The chime is switched on either way; only a successful call records the
    new identifier.
   */
  lemma ToggleEnable(cs: seq<Chime>, id: string, o: Outcome)
    requires Find(cs, id).Some? && !Find(cs, id).value.enabled
    requires Answers(RequestFor(cs, id), o)
    ensures RequestFor(cs, id) == Some(ScheduleDaily(ChimeNotification(Find(cs, id).value.hour)))
    ensures o.Scheduled? || o.ScheduleFailed?
    ensures |Settle(cs, id, o)| == |cs|
    ensures forall i :: 0 <= i < |cs| ==>
      (Settle(cs, id, o)[i] ==
        if cs[i].id != id then cs[i]
        else if o.Scheduled? then cs[i].(enabled := true, identifier := Some(o.identifier))
        else cs[i].(enabled := !cs[i].enabled))
    ensures forall i :: 0 <= i < |cs| && cs[i] == Find(cs, id).value ==>
      Settle(cs, id, o)[i].enabled
      && Settle(cs, id, o)[i].identifier == (if o.Scheduled? then Some(o.identifier) else cs[i].identifier)
  {
  }

  /**
    Pressing an enabled chime that holds an identifier cancels exactly that
    identifier.  The chime is switched off either way; only a successful
    cancel forgets the identifier.
   */
  lemma ToggleDisable(cs: seq<Chime>, id: string, o: Outcome)
    requires Find(cs, id).Some? && Find(cs, id).value.enabled && HasIdentifier(Find(cs, id).value)
    requires Answers(RequestFor(cs, id), o)
    ensures RequestFor(cs, id) == Some(CancelScheduled(Find(cs, id).value.identifier.value))
    ensures o.Cancelled? || o.CancelFailed?
    ensures |Settle(cs, id, o)| == |cs|
    ensures forall i :: 0 <= i < |cs| ==>
      (Settle(cs, id, o)[i] ==
        if cs[i].id != id then cs[i]
        else if o.Cancelled? then cs[i].(enabled := false, identifier := None)
        else cs[i].(enabled := !cs[i].enabled))
    ensures forall i :: 0 <= i < |cs| && cs[i] == Find(cs, id).value ==>
      !Settle(cs, id, o)[i].enabled
      && Settle(cs, id, o)[i].identifier == (if o.Cancelled? then None else cs[i].identifier)
  {
  }

  /** Pressing an enabled chime without an identifier only switches it off. */
  lemma ToggleDisableUnscheduled(cs: seq<Chime>, id: string, o: Outcome)
    requires Find(cs, id).Some? && Find(cs, id).value.enabled && !HasIdentifier(Find(cs, id).value)
    requires Answers(RequestFor(cs, id), o)
    ensures RequestFor(cs, id) == None && o == NoCall && !Persists(o)
    ensures Settle(cs, id, o) == Flip(cs, id)
    ensures forall i :: 0 <= i < |cs| && cs[i] == Find(cs, id).value ==>
      Settle(cs, id, o)[i] == cs[i].(enabled := false)
  {
  }

  // ---------------------------------------------------------------------
  // Properties across presses

  /**
    Switching a chime on and then off again, with both scheduler calls
    succeeding, cancels the identifier the scheduler handed out and leaves the
    table exactly as it was.
   */
  lemma {:induction false} EnableThenDisableRestores(cs: seq<Chime>, id: string, x: string)
    requires Find(cs, id).Some?
    requires forall i :: 0 <= i < |cs| && cs[i].id == id ==> !cs[i].enabled && cs[i].identifier == None
    requires x != ""
    ensures RequestFor(cs, id) == Some(ScheduleDaily(ChimeNotification(Find(cs, id).value.hour)))
    ensures RequestFor(Settle(cs, id, Scheduled(x)), id) == Some(CancelScheduled(x))
    ensures Settle(Settle(cs, id, Scheduled(x)), id, Cancelled) == cs
  {
    var on := Settle(cs, id, Scheduled(x));
    ToggleEnable(cs, id, Scheduled(x));
    PressedAgain(cs, id, x);
    ToggleDisable(on, id, Cancelled);
    var off := Settle(on, id, Cancelled);
    forall i | 0 <= i < |cs|
      ensures off[i] == cs[i]
    {
    }
  }

  /**
    Two presses in a row on a disabled, unscheduled chime, the first of which
    scheduled: the calls sent are the schedule for its hour and then the
    cancel of the identifier that schedule returned.
   */
  lemma {:induction false} TwoPresses(cs: seq<Chime>, id: string, x: string,
                                      calls: seq<Request>, between: seq<Request>, after: seq<Request>)
    requires Find(cs, id).Some?
    requires forall i :: 0 <= i < |cs| && cs[i].id == id ==> !cs[i].enabled && cs[i].identifier == None
    requires x != ""
    requires between == calls + Sent(RequestFor(cs, id))
    requires after == between + Sent(RequestFor(Settle(cs, id, Scheduled(x)), id))
    ensures after == calls + [ScheduleDaily(ChimeNotification(Find(cs, id).value.hour)), CancelScheduled(x)]
  {
    var schedule := ScheduleDaily(ChimeNotification(Find(cs, id).value.hour));
    var k :| 0 <= k < |cs| && cs[k] == Find(cs, id).value;
    assert !cs[k].enabled;
    assert RequestFor(cs, id) == Some(schedule);
    PressedAgain(cs, id, x);
    assert RequestFor(Settle(cs, id, Scheduled(x)), id) == Some(CancelScheduled(x));
    SentInOrder(calls, between, after, schedule, CancelScheduled(x));
  }

  /** Two calls sent one after the other extend the log by both, in order. */
  lemma SentInOrder(calls: seq<Request>, between: seq<Request>, after: seq<Request>, a: Request, b: Request)
    requires between == calls + Sent(Some(a)) && after == between + Sent(Some(b))
    ensures after == calls + [a, b]
  {
    assert after == calls + [a] + [b];
  }

  /**
    Switching a disabled chime on and then off again, with both scheduler
    calls succeeding, cancels the identifier the scheduler handed out and
    leaves the chime off with no identifier, even when it held a stale one
    before; every other chime is unchanged.
   */
  lemma {:induction false} EnableThenDisableClears(cs: seq<Chime>, id: string, x: string)
    requires UniqueIds(cs)
    requires Find(cs, id).Some? && !Find(cs, id).value.enabled
    requires x != ""
    ensures RequestFor(Settle(cs, id, Scheduled(x)), id) == Some(CancelScheduled(x))
    ensures var off := Settle(Settle(cs, id, Scheduled(x)), id, Cancelled);
      |off| == |cs| && forall i :: 0 <= i < |cs| ==>
        (off[i] == if cs[i].id == id then cs[i].(enabled := false, identifier := None) else cs[i])
  {
    var on := Settle(cs, id, Scheduled(x));
    ToggleEnable(cs, id, Scheduled(x));
    PressedAgain(cs, id, x);
    ToggleDisable(on, id, Cancelled);
  }

  /** After a successful schedule, the chime found by id is on and holds the new identifier. */
  lemma PressedAgain(cs: seq<Chime>, id: string, x: string)
    requires Find(cs, id).Some? && !Find(cs, id).value.enabled
    ensures var c := Find(Settle(cs, id, Scheduled(x)), id);
      c.Some? && c.value.enabled && c.value.identifier == Some(x)
  {
    var on := Settle(cs, id, Scheduled(x));
    var k :| 0 <= k < |cs| && cs[k] == Find(cs, id).value;
    SettleAt(cs, id, Scheduled(x), k);
    var j :| 0 <= j < |on| && on[j] == Find(on, id).value;
    SettleAt(cs, id, Scheduled(x), j);
  }

  /** With unique ids, the chime Find returns is the only one with that id. */
  lemma FoundIsOnlyMatch(cs: seq<Chime>, id: string, i: int)
    requires UniqueIds(cs) && Find(cs, id).Some?
    requires 0 <= i < |cs| && cs[i].id == id
    ensures cs[i] == Find(cs, id).value
  {
  }

  /**
    On a table whose chimes all agree with their scheduler state, a press
    keeps that agreement exactly when its scheduler call succeeded: a failed
    call, or a press that sends none because the identifier is empty, leaves
    a chime switched on without an identifier, or off with one.
   */
  lemma OnlyFailuresBreakConsistency(cs: seq<Chime>, id: string, o: Outcome)
    requires AllConsistent(cs)
    requires Find(cs, id).Some?
    requires Answers(RequestFor(cs, id), o)
    ensures AllConsistent(Settle(cs, id, o)) <==> Persists(o)
  {
    var r := Settle(cs, id, o);
    var c := Find(cs, id).value;
    var k :| 0 <= k < |cs| && cs[k] == c;
    if o.ScheduleFailed? {
      ToggleEnable(cs, id, o);
      assert !Consistent(r[k]);
    } else if o.CancelFailed? {
      ToggleDisable(cs, id, o);
      assert !Consistent(r[k]);
    } else if o.Scheduled? {
      ToggleEnable(cs, id, o);
    } else if o.Cancelled? {
      ToggleDisable(cs, id, o);
    } else {
      // an enabled chime holding "": no call, and it ends off but still holding ""
      ToggleDisableUnscheduled(cs, id, o);
      assert !Consistent(r[k]);
    }
  }

  /** A successful schedule records a fresh identifier on the one chime pressed. */
  lemma TrackedAfterSchedule(cs: seq<Chime>, id: string, x: string, live: map<string, DailyNotification>)
    requires UniqueIds(cs) && Tracked(cs, live)
    requires Find(cs, id).Some? && x !in live
    ensures Tracked(Settle(cs, id, Scheduled(x)), live[x := ChimeNotification(Find(cs, id).value.hour)])
  {
    var c := Find(cs, id).value;
    var r := Settle(cs, id, Scheduled(x));
    var live' := live[x := ChimeNotification(c.hour)];
    forall i | 0 <= i < |r| && r[i].identifier.Some?
      ensures r[i].identifier.value in live' && live'[r[i].identifier.value] == ChimeNotification(r[i].hour)
    {
      SettleAt(cs, id, Scheduled(x), i);
      if cs[i].id == id {
        FoundIsOnlyMatch(cs, id, i);
      }
    }
    forall i, j | 0 <= i < j < |r| && r[i].identifier.Some? && r[j].identifier.Some?
      ensures r[i].identifier.value != r[j].identifier.value
    {
      SettleAt(cs, id, Scheduled(x), i);
      SettleAt(cs, id, Scheduled(x), j);
      assert cs[i].id != id || cs[j].id != id;
    }
  }

  /** A successful cancel forgets the identifier of the one chime pressed, and only that one. */
  lemma TrackedAfterCancel(cs: seq<Chime>, id: string, live: map<string, DailyNotification>)
    requires UniqueIds(cs) && Tracked(cs, live)
    requires Find(cs, id).Some? && Find(cs, id).value.identifier.Some?
    ensures Tracked(Settle(cs, id, Cancelled), live - {Find(cs, id).value.identifier.value})
  {
    var r := Settle(cs, id, Cancelled);
    var gone := Find(cs, id).value.identifier.value;
    forall i | 0 <= i < |r| && r[i].identifier.Some?
      ensures r[i] == cs[i] && r[i].identifier.value != gone
    {
      SettleAt(cs, id, Cancelled, i);
      if cs[i].identifier == Some(gone) {
        OnlyHolder(cs, id, i);
      }
    }
  }

  /** Identifiers being distinct, only the chime found under `id` holds its identifier. */
  lemma OnlyHolder(cs: seq<Chime>, id: string, i: int)
    requires DistinctIdentifiers(cs) && Find(cs, id).Some? && Find(cs, id).value.identifier.Some?
    requires 0 <= i < |cs| && cs[i].identifier == Find(cs, id).value.identifier
    ensures cs[i].id == id
  {
    var k :| 0 <= k < |cs| && cs[k] == Find(cs, id).value;
  }

  /** A press that records nothing keeps every identifier and hour of the table. */
  lemma TrackedAfterFlip(cs: seq<Chime>, id: string, live: map<string, DailyNotification>)
    requires Tracked(cs, live)
    ensures Tracked(Flip(cs, id), live)
  {
  }

  /**
    Whatever the scheduler answers, a press keeps the table's identifiers
    tracked: each names a live notification for its chime's hour, and none is
    shared.
   */
  lemma {:induction false} TogglePreservesTracked(cs: seq<Chime>, id: string, o: Outcome,
                                                   live: map<string, DailyNotification>,
                                                   live': map<string, DailyNotification>)
    requires UniqueIds(cs) && Tracked(cs, live)
    requires Answers(RequestFor(cs, id), o)
    requires LiveStep(live, RequestFor(cs, id), o, live')
    ensures UniqueIds(Settle(cs, id, o))
    ensures Tracked(Settle(cs, id, o), live')
  {
    var r := Settle(cs, id, o);
    if Find(cs, id).None? {
      ToggleUnknownId(cs, id);
      return;
    }
    assert forall i :: 0 <= i < |cs| ==> r[i].id == cs[i].id;
    match o
    case Scheduled(x) =>
      TrackedAfterSchedule(cs, id, x, live);
    case Cancelled =>
      TrackedAfterCancel(cs, id, live);
    case _ =>
      TrackedAfterFlip(cs, id, live);
  }

  // ---------------------------------------------------------------------
  // Orphaned notifications

  /** The identifiers the table records. */
  function Recorded(cs: seq<Chime>): set<string> {
    set i | 0 <= i < |cs| && cs[i].identifier.Some? :: cs[i].identifier.value
  }

  /** A switched-off chime that still holds an identifier: what a failed cancel leaves behind. */
  predicate Stale(c: Chime) {
    !c.enabled && c.identifier.Some?
  }

  lemma RecordedAfterSchedule(cs: seq<Chime>, id: string, x: string)
    requires UniqueIds(cs) && Find(cs, id).Some? && Find(cs, id).value.identifier.None?
    ensures Recorded(Settle(cs, id, Scheduled(x))) == Recorded(cs) + {x}
  {
    var r := Settle(cs, id, Scheduled(x));
    var k :| 0 <= k < |cs| && cs[k] == Find(cs, id).value;
    forall y | y in Recorded(cs) + {x}
      ensures y in Recorded(r)
    {
      if y == x {
        SettleAt(cs, id, Scheduled(x), k);
        assert r[k].identifier == Some(x);
      } else {
        var i :| 0 <= i < |cs| && cs[i].identifier == Some(y);
        assert cs[i].id != id by {
          if cs[i].id == id { FoundIsOnlyMatch(cs, id, i); }
        }
        SettleAt(cs, id, Scheduled(x), i);
        assert r[i].identifier == Some(y);
      }
    }
    forall y | y in Recorded(r)
      ensures y in Recorded(cs) + {x}
    {
      var i :| 0 <= i < |r| && r[i].identifier == Some(y);
      SettleAt(cs, id, Scheduled(x), i);
    }
  }

  lemma RecordedAfterCancel(cs: seq<Chime>, id: string)
    requires UniqueIds(cs) && Find(cs, id).Some? && Find(cs, id).value.identifier.Some?
    requires DistinctIdentifiers(cs)
    ensures Recorded(Settle(cs, id, Cancelled)) == Recorded(cs) - {Find(cs, id).value.identifier.value}
  {
    var r := Settle(cs, id, Cancelled);
    var gone := Find(cs, id).value.identifier.value;
    forall y | y in Recorded(cs) - {gone}
      ensures y in Recorded(r)
    {
      var i :| 0 <= i < |cs| && cs[i].identifier == Some(y);
      assert cs[i].id != id by {
        if cs[i].id == id { FoundIsOnlyMatch(cs, id, i); }
      }
      SettleAt(cs, id, Cancelled, i);
      assert r[i].identifier == Some(y);
    }
    forall y | y in Recorded(r)
      ensures y in Recorded(cs) - {gone}
    {
      var i :| 0 <= i < |r| && r[i].identifier == Some(y);
      SettleAt(cs, id, Cancelled, i);
      if cs[i].identifier == Some(gone) {
        OnlyHolder(cs, id, i);
      }
    }
  }

  lemma RecordedAfterFlip(cs: seq<Chime>, id: string)
    ensures Recorded(Flip(cs, id)) == Recorded(cs)
  {
    var r := Flip(cs, id);
    assert forall i :: 0 <= i < |cs| ==> r[i].identifier == cs[i].identifier;
    forall y | y in Recorded(cs)
      ensures y in Recorded(r)
    {
      var i :| 0 <= i < |cs| && cs[i].identifier == Some(y);
      assert r[i].identifier == Some(y);
    }
  }

  /**
    When the scheduler holds exactly the notifications the table records, a
    press keeps it so, unless it re-enables a stale chime.
   */
  lemma {:induction false} ToggleKeepsNoOrphans(cs: seq<Chime>, id: string, o: Outcome,
                                                 live: map<string, DailyNotification>,
                                                 live': map<string, DailyNotification>)
    requires UniqueIds(cs) && Tracked(cs, live) && live.Keys == Recorded(cs)
    requires Find(cs, id).Some? ==> !Stale(Find(cs, id).value)
    requires Answers(RequestFor(cs, id), o)
    requires LiveStep(live, RequestFor(cs, id), o, live')
    ensures live'.Keys == Recorded(Settle(cs, id, o))
  {
    match o
    case Scheduled(x) =>
      RecordedAfterSchedule(cs, id, x);
    case Cancelled =>
      RecordedAfterCancel(cs, id);
    case _ =>
      RecordedAfterFlip(cs, id);
  }

  /**
    Re-enabling a stale chime replaces its identifier without cancelling it:
    the old notification stays live, and the table no longer records it.
   */
  lemma {:induction false} ReenablingStaleChimeOrphans(cs: seq<Chime>, id: string, x: string,
                                                        live: map<string, DailyNotification>)
    requires UniqueIds(cs) && Tracked(cs, live)
    requires Find(cs, id).Some? && Stale(Find(cs, id).value) && x !in live
    ensures var old_id := Find(cs, id).value.identifier.value;
      RequestFor(cs, id) == Some(ScheduleDaily(ChimeNotification(Find(cs, id).value.hour)))
      && old_id in live[x := ChimeNotification(Find(cs, id).value.hour)]
      && old_id !in Recorded(Settle(cs, id, Scheduled(x)))
  {
    var c := Find(cs, id).value;
    var old_id := c.identifier.value;
    var r := Settle(cs, id, Scheduled(x));
    var k :| 0 <= k < |cs| && cs[k] == c;
    assert old_id in live;
    forall i | 0 <= i < |r| && r[i].identifier.Some?
      ensures r[i].identifier.value != old_id
    {
      SettleAt(cs, id, Scheduled(x), i);
      if cs[i].id == id {
        FoundIsOnlyMatch(cs, id, i);
      } else if i < k {
        assert cs[i].identifier.value != cs[k].identifier.value;
      } else {
        assert cs[k].identifier.value != cs[i].identifier.value;
      }
    }
  }
}
