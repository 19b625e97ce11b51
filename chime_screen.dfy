/**
  The chime screen's state and handlers (`chimeView` in app/index.tsx): the
  `chimes` list, its load-or-default at start-up, `updateChimeState`,
  `enableChime` and `togglechime`.  Each handler runs to completion before the
  next one starts: the flip, the scheduler call and the recorded result of one
  press happen in that order, with nothing in between.
 */
module ChimeScreen {
  import opened Wrappers
  import opened Chimes
  import opened Notifications
  import opened Storage
  import opened Toggling

  /** `enableChime`: schedule the daily notification for an hour; the identifier, or None if it threw. */
  method EnableChime(hour: int, sched: Scheduler) returns (r: Option<string>)
    requires sched.Valid()
    modifies sched
    ensures sched.Valid() && sched.permitted == old(sched.permitted)
    ensures sched.calls == old(sched.calls) + [ScheduleDaily(ChimeNotification(hour))]
    ensures r.Some? ==> r.value != "" && r.value !in old(sched.live)
                        && sched.live == old(sched.live)[r.value := ChimeNotification(hour)]
    ensures r.None? ==> sched.live == old(sched.live)
  {
    r := sched.Schedule(ChimeNotification(hour));
  }

  class ChimeView {
    var chimes: seq<Chime>

    /** `useState(generatechimes())`. */
    constructor ()
      ensures chimes == GenerateChimes()
    {
      chimes := GenerateChimes();
    }

    /** The start-up effect: a stored list is taken as it is, otherwise the defaults. */
    method LoadFromStorage(store: Store)
      modifies this
      ensures chimes == if !store.failing && store.saved.Some? then store.saved.value else GenerateChimes()
    {
      var saved := store.Load();
      if saved.Some? {
        chimes := saved.value;
      } else {
        chimes := GenerateChimes();
      }
    }

    /** `updateChimeState`: overwrite the scheduler state of the chimes with that id, and save the list. */
    method UpdateChimeState(id: string, identifier: Option<string>, enabled: bool, store: Store)
      modifies this, store
      ensures chimes == SetChime(old(chimes), id, identifier, enabled)
      ensures store.writes == old(store.writes) + [chimes] && store.failing == old(store.failing)
      ensures store.saved == if store.failing then old(store.saved) else Some(chimes)
    {
      chimes := SetChime(chimes, id, identifier, enabled);
      store.Save(chimes);
    }

    /**
      `togglechime`: flip the switch, then schedule or cancel according to the
      chime as it was before the flip, and record and save the result only if
      the scheduler call succeeded.  A cancel that throws ends the press with
      the flip in place.
     */
    method Toggle(id: string, sched: Scheduler, store: Store) returns (outcome: Outcome)
      requires sched.Valid()
      modifies this, sched, store
      ensures sched.Valid() && sched.permitted == old(sched.permitted)
      ensures Answers(RequestFor(old(chimes), id), outcome)
      ensures sched.calls == old(sched.calls) + Sent(RequestFor(old(chimes), id))
      ensures LiveStep(old(sched.live), RequestFor(old(chimes), id), outcome, sched.live)
      ensures chimes == Settle(old(chimes), id, outcome)
      ensures store.writes == old(store.writes) + (if Persists(outcome) then [chimes] else [])
      ensures store.failing == old(store.failing)
      ensures store.saved == if Persists(outcome) && !store.failing then Some(chimes) else old(store.saved)
      ensures UniqueIds(old(chimes)) && Tracked(old(chimes), old(sched.live)) ==>
        UniqueIds(chimes) && Tracked(chimes, sched.live)
    {
      ghost var before, liveBefore := chimes, sched.live;
      var chime := Find(chimes, id);
      chimes := Flip(chimes, id);
      if chime.None? {
        outcome := NoCall;
      } else if !chime.value.enabled {
        var notificationId := EnableChime(chime.value.hour, sched);
        if notificationId.Some? {
          UpdateChimeState(id, notificationId, true, store);
          outcome := Scheduled(notificationId.value);
        } else {
          outcome := ScheduleFailed;
        }
      } else if HasIdentifier(chime.value) {
        var ok := sched.Cancel(chime.value.identifier.value);
        if ok {
          UpdateChimeState(id, None, false, store);
          outcome := Cancelled;
        } else {
          outcome := CancelFailed;
        }
      } else {
        outcome := NoCall;
      }
      if UniqueIds(before) && Tracked(before, liveBefore) {
        TogglePreservesTracked(before, id, outcome, liveBefore, sched.live);
      }
    }
  }

  /**
    A fresh install: the defaults, every identifier tracked, and nothing
    scheduled that the table does not record.
   */
  method FreshInstall(permitted: bool) returns (view: ChimeView, sched: Scheduler, store: Store)
    ensures fresh(view) && fresh(sched) && fresh(store)
    ensures view.chimes == GenerateChimes() && sched.Valid()
    ensures UniqueIds(view.chimes) && Tracked(view.chimes, sched.live)
    ensures sched.live.Keys == Recorded(view.chimes)
  {
    store := new Store(None, false);
    sched := new Scheduler(permitted);
    view := new ChimeView();
    view.LoadFromStorage(store);
    DefaultsDistinct();
    assert Recorded(view.chimes) == {};
  }

  /**
    A press whose scheduler call succeeded is written to a working store, so a
    restart loads exactly the table the press left.
   */
  method ToggleThenRestart(view: ChimeView, id: string, sched: Scheduler, store: Store)
    returns (outcome: Outcome, restarted: ChimeView)
    requires sched.Valid() && !store.failing
    modifies view, sched, store
    ensures fresh(restarted)
    ensures Persists(outcome) ==> restarted.chimes == view.chimes
  {
    outcome := view.Toggle(id, sched, store);
    restarted := new ChimeView();
    restarted.LoadFromStorage(store);
  }

  /**
    Switching a disabled, unscheduled chime on and off: when both scheduler
    calls succeed, the cancel is sent to the identifier the schedule returned
    and the table is back to what it was.
   */
  method SwitchOnAndOff(view: ChimeView, id: string, sched: Scheduler, store: Store)
    returns (first: Outcome, second: Outcome)
    requires sched.Valid()
    requires Find(view.chimes, id).Some?
    requires forall i :: 0 <= i < |view.chimes| && view.chimes[i].id == id ==>
      !view.chimes[i].enabled && view.chimes[i].identifier == None
    modifies view, sched, store
    ensures first.Scheduled? ==>
      sched.calls == old(sched.calls) + [ScheduleDaily(ChimeNotification(Find(old(view.chimes), id).value.hour)),
                                         CancelScheduled(first.identifier)]
    ensures first.Scheduled? && second.Cancelled? ==> view.chimes == old(view.chimes)
  {
    ghost var start, calls := view.chimes, sched.calls;
    first := view.Toggle(id, sched, store);
    ghost var between := sched.calls;
    second := view.Toggle(id, sched, store);
    if first.Scheduled? {
      TwoPresses(start, id, first.identifier, calls, between, sched.calls);
      EnableThenDisableRestores(start, id, first.identifier);
    }
  }
}
