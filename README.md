# Hourly chime: the chime table and its toggle, in Dafny

The app shows 24 chimes, one per hour of the day. Each chime has a switch. Switching a chime on asks the
device's notification scheduler for a DAILY notification at that hour, on the hour. Switching it off
cancels that notification. The list of chimes is saved to the device's key-value store after every
scheduler call that succeeds. At start-up the saved list is loaded, or the 24 defaults are built when
nothing is saved.

This project models that logic from `app/index.tsx` and proves what it does, including the failure paths:

- `wrappers.dfy` (`Wrappers`): `Option`, the model of `T | null`.
- `decimal.dfy` (`Decimal`): how a template literal renders an integer (`${n}`) of the size the app
  uses, and a parser that inverts it.
- `chimes.dfy` (`Chimes`): the `Chime` record, `formatTime12Hour`, `generatechimes`, and the by-id
  operations on the list (`find`, the optimistic flip, and the map inside `updateChimeState`).
- `notifications.dfy` (`Notifications`): the scheduler as a collaborator class. `Schedule` either
  returns a fresh, non-empty identifier or fails. `Cancel` either removes that notification or fails
  and removes nothing. Every call is logged in `calls`, in order.
- `storage.dfy` (`Storage`): the store under the key `chimes`, holding the last list written.
- `toggling.dfy` (`Toggling`): one press of a switch as a function of the list before the press and
  the scheduler's answer, with the lemmas about presses.
- `chime_screen.dfy` (`ChimeScreen`): the screen's state as a class `ChimeView` with the `chimes`
  field. Its methods are the start-up load, `updateChimeState` and `togglechime`. Beside it sit
  `enableChime` and three client methods that chain the handlers.

`ChimeView.Toggle` is proved only against the contracts of `Scheduler.Schedule` and `Scheduler.Cancel`.
So its guarantees hold for any scheduler that keeps those contracts. The bodies of those two methods
are a stand-in for the device:
- scheduling fails while notifications are not permitted;
- identifiers carry a serial number;
- cancelling an identifier that is not live fails.

A press is modelled in this order: read the chime, flip its switch, call the scheduler, then record
and save the result. The flip stays in place when the call fails. The JavaScript details that decide
branches are kept:
- `hour % 12` is a truncating remainder;
- `|| 12` turns a zero remainder into 12;
- `if (chime.identifier)` treats `""` like `null`, so an enabled chime with an empty identifier is
  switched off without a cancel;
- `if (savedchimes)` accepts a stored empty list.
A cancel that throws is not caught in `togglechime`. The press then ends with the chime switched off,
its identifier kept, and nothing saved.

The weekday picker is only a TODO and a commented sketch in `app/index.tsx` (lines 10 and 164-175).
So the model schedules one DAILY notification per hour and has no day set. A failed cancel does not
clear the chime's identifier, in the code and in the model.

## Model

| member | source | states |
|---|---|---|
| `Decimal.NatToString` | app/index.tsx:42 | the rendering of a number is a non-empty string of digits with no leading zero |
| `Decimal.IntToString` | app/index.tsx:42 | a non-negative number renders as digits that read back as that number; a negative one renders as a minus sign followed by digits that read back as its magnitude |
| `Decimal.ParseNat` | app/index.tsx:46 | a string parses exactly when it is a non-empty string of digits |
| `Decimal.ParseNatToString` | app/index.tsx:46 | parsing the rendering of `n` gives back `n` |
| `Decimal.NatToStringInjective` | app/index.tsx:46 | distinct numbers render differently |
| `Chimes.JsRemainder` | app/index.tsx:41 | `%` keeps the dividend's sign and is below the divisor in size; on non-negative numbers it is the mathematical remainder |
| `Chimes.Hour12` | app/index.tsx:41 | for every non-negative hour the 12-hour reading is in 1..12 |
| `Chimes.Period` | app/index.tsx:40 | the period is "AM" or "PM", and "AM" exactly when the hour is below 12 |
| `Chimes.FormatTime12Hour` | app/index.tsx:39-43 | the label ends in ":00 AM" below hour 12 and ":00 PM" from 12 on, and for a non-negative hour it starts with digits that read back as the 12-hour reading; the facts for 0..23 are in `FormatTime12HourShape` and `ParseFormatTime12Hour` |
| `Chimes.FormatTime12HourShape` | app/index.tsx:39-43 | for hours 0..23: hour12 is in 1..12; the period is "AM" exactly when hour < 12 and "PM" exactly when hour >= 12; hour12 is 12 exactly for hours 0 and 12; the label is `<hour12>:00 <period>` |
| `Chimes.To24HourInverts` | app/index.tsx:39-43 | the 12-hour reading and period of an hour convert back to that hour |
| `Chimes.ParseFormatTime12Hour` | app/index.tsx:39-43 | the label of every hour 0..23 reads back as that hour |
| `Chimes.FormatTime12HourInjective` | app/index.tsx:39-43 | no two hours of the day share a label |
| `Chimes.ChimeId` | app/index.tsx:46 | the id is `chime-` followed by digits that read back as the hour |
| `Chimes.DefaultChime` | app/index.tsx:45-51 | the chime for an hour carries that hour and its id, is disabled, has a null identifier, and for hours 0..23 its label reads back as the hour |
| `Chimes.GenerateChimes` | app/index.tsx:44-51 | 24 chimes, the one at index h for hour h, all disabled with a null identifier; ids and labels are distinct by `DefaultsDistinct` |
| `Chimes.GenerateChimesShape` | app/index.tsx:44-51 | there are 24 defaults; the one at index h has hour h, id `chime-<h>`, the label of h, is disabled, and has a null identifier |
| `Chimes.ChimeIdInjective` | app/index.tsx:46 | distinct hours get distinct chime ids |
| `Chimes.DefaultsDistinct` | app/index.tsx:44-51 | the default chimes have pairwise distinct ids and pairwise distinct labels |
| `Chimes.Find` | app/index.tsx:204 | the result is absent exactly when no chime has the id; otherwise it is the first chime with that id |
| `Chimes.Flip` | app/index.tsx:198-202 | the length is kept; a chime's switch changes exactly when its id matches, and no other field of any chime changes |
| `Chimes.SetChime` | app/index.tsx:229-231 | the length is kept and every chime with another id is unchanged; what matching chimes get is in `SetChimeFrame` |
| `Chimes.SetChimeFrame` | app/index.tsx:229-231 | the length is kept; chimes with the id get exactly the given identifier and switch, and keep id, label and hour; every other chime is unchanged |
| `Chimes.SetChimeAfterFlip` | app/index.tsx:198-235 | recording a scheduler result after the optimistic flip gives the same list as recording it without the flip |
| `Chimes.NoMatchUnchanged` | app/index.tsx:198-205 | an id that matches no chime leaves the list unchanged under both the flip and the update |
| `Notifications.Scheduler.Schedule` | app/index.tsx:178-193 | one schedule call is logged; on success the identifier is non-empty and fresh, and the notification is live under it; on failure nothing is live that was not before |
| `Notifications.Scheduler.Cancel` | app/index.tsx:219 | one cancel call is logged; on success exactly that identifier stops being live; on failure nothing changes |
| `Storage.Store.Save` | app/index.tsx:54-60 | every write is logged; a working store then holds exactly the list written; a failing one keeps what it held |
| `Storage.Store.Load` | app/index.tsx:62-70 | the read gives the stored list when the store works and holds one; otherwise null |
| `Toggling.ChimeNotification` | app/index.tsx:177-195 | the notification for an hour fires daily at that hour, minute 0 |
| `Toggling.HasIdentifier` | app/index.tsx:218 | a chime counts as scheduled exactly when its identifier is non-null and non-empty: JavaScript's truthiness of a string |
| `Toggling.RequestFor` | app/index.tsx:204-219 | no call exactly when no chime has the id, or the pre-flip chime is enabled with no usable identifier; a schedule call exactly when it is disabled, for its hour at minute 0; a cancel goes to the identifier it holds |
| `Toggling.Settle` | app/index.tsx:198-223 | a press keeps the length and every chime's id, label and hour, and leaves chimes with other ids unchanged; the per-case effect is in `ToggleEnable`, `ToggleDisable` and `ToggleDisableUnscheduled` |
| `Toggling.Persists` | app/index.tsx:211-220 | a press saves exactly when it ended in neither no call, a failed schedule nor a failed cancel |
| `Toggling.ToggleUnknownId` | app/index.tsx:198-205 | pressing an id that matches no chime makes no scheduler call and leaves the list unchanged |
| `Toggling.ToggleEnable` | app/index.tsx:198-215 | pressing a disabled chime makes one DAILY schedule call at its hour and minute 0; the chime ends enabled; only on success does it take the returned identifier; every other chime is unchanged |
| `Toggling.ToggleDisable` | app/index.tsx:198-223 | pressing an enabled chime with an identifier cancels exactly that identifier; the chime ends disabled; only on success is its identifier cleared; every other chime is unchanged |
| `Toggling.ToggleDisableUnscheduled` | app/index.tsx:216-223 | pressing an enabled chime whose identifier is null or empty makes no call, only flips the switch, and saves nothing |
| `Toggling.EnableThenDisableRestores` | app/index.tsx:207-221 | switching a disabled, unscheduled chime on and off with both calls succeeding cancels the identifier the schedule returned and restores the list exactly |
| `Toggling.SettleAt` | app/index.tsx:198-223 | chime by chime, a press applies its outcome to the chimes with the pressed id (on with the new identifier, off with none, or only the switch flipped) and leaves every other chime as it was |
| `Toggling.TwoPresses` | app/index.tsx:204-221 | on a disabled, unscheduled chime, a successful schedule followed by a second press sends exactly two calls: the daily schedule for the chime's hour, then the cancel of the identifier it returned |
| `Toggling.PressedAgain` | app/index.tsx:204-211 | after a successful schedule the chime found by the id is enabled and holds the new identifier |
| `Toggling.EnableThenDisableClears` | app/index.tsx:207-221 | switching a disabled chime on and off with both calls succeeding, even one still holding an old identifier, cancels the identifier the schedule returned and leaves it off with a null identifier; every other chime is unchanged |
| `Toggling.OnlyFailuresBreakConsistency` | app/index.tsx:207-223 | on a list whose switches agree with their identifiers, a press keeps that agreement if and only if its scheduler call succeeded, so a press that sends no call (an enabled chime holding an empty identifier) breaks it as a failed call does |
| `Toggling.TrackedAfterSchedule` | app/index.tsx:207-212 | after a successful schedule every recorded identifier is still live for its chime's hour, and none is shared |
| `Toggling.TrackedAfterCancel` | app/index.tsx:216-221 | after a successful cancel every recorded identifier is still live for its chime's hour, and none is shared |
| `Toggling.TrackedAfterFlip` | app/index.tsx:198-202 | a press that records nothing keeps every recorded identifier live for its chime's hour |
| `Toggling.TogglePreservesTracked` | app/index.tsx:197-224 | whatever the scheduler answers, every identifier the list records names a live notification for that chime's hour, and no two chimes share one |
| `Toggling.RecordedAfterSchedule` | app/index.tsx:207-212 | a successful schedule on a chime without an identifier adds exactly the new identifier to those the list records |
| `Toggling.RecordedAfterCancel` | app/index.tsx:216-221 | a successful cancel removes exactly the cancelled identifier from those the list records |
| `Toggling.RecordedAfterFlip` | app/index.tsx:198-202 | the flip records the same identifiers as before |
| `Toggling.ToggleKeepsNoOrphans` | app/index.tsx:197-224 | when the scheduler holds exactly the notifications the list records, a press keeps it so unless it re-enables a disabled chime that still holds an identifier |
| `Toggling.ReenablingStaleChimeOrphans` | app/index.tsx:207-222 | re-enabling a chime whose cancel failed schedules again without cancelling: the old notification stays live and the list no longer records it |
| `ChimeScreen.EnableChime` | app/index.tsx:177-195 | one DAILY schedule call for the hour; the result is the fresh identifier under which that notification is live, or None when the call failed |
| `ChimeScreen.ChimeView.constructor` | app/index.tsx:52 | the screen starts with the 24 defaults |
| `ChimeScreen.ChimeView.LoadFromStorage` | app/index.tsx:109-117 | a stored list is used as it is; when nothing is stored or the read fails, the defaults are used |
| `ChimeScreen.ChimeView.UpdateChimeState` | app/index.tsx:227-235 | the chimes with the id take the given identifier and switch, nothing else changes, and exactly the new list is written to the store |
| `ChimeScreen.ChimeView.Toggle` | app/index.tsx:197-224 | the call sent is the one the pre-flip chime asks for, the list becomes the settled list for the scheduler's answer, the scheduler's live notifications change only as that answer says, the list is saved exactly on success, tracked identifiers stay tracked, and the notification permission is unchanged |
| `ChimeScreen.FreshInstall` | app/index.tsx:109-117 | on a first run the screen holds the defaults and the scheduler holds nothing the list does not record |
| `ChimeScreen.ToggleThenRestart` | app/index.tsx:54-70 | after a press whose call succeeded, a restart with a working store loads exactly the list the press left |
| `ChimeScreen.SwitchOnAndOff` | app/index.tsx:207-221 | switching a chime on then off sends the schedule call and then a cancel of the identifier it returned; with both successful, the list is as before |

## Left out

- Push-token registration, permission prompts, channel creation, the notification handler and the received/response listeners (app/index.tsx:16-22, 82-107, 119-162): device and network I/O. Permission appears only as the scheduler's `permitted` flag.
- `JSON.stringify`/`JSON.parse` and `removeValue` (app/index.tsx:54-80): the store holds the list itself, because the encoding is the identity on these records.
- Console logging of successes and failures: the outcome of a press is returned as `Outcome` instead.
- The notification's `priority` and `interruptionLevel` (app/index.tsx:181-182): display attributes that do not affect what is scheduled or cancelled. The title, channel, hour, minute and DAILY trigger are modelled.
- React rendering, `FlatList`/`Switch` markup, `chooseSound` and the styles (app/index.tsx:238-334).
- React's batching of `setchimes` and the stale closure that `togglechime` reads (app/index.tsx:204): a press is modelled as running to completion, with no interleaving of presses.
- Decimal.IntToString: renders every integer as plain digits, while JavaScript writes integers of 10^21 and above in exponent form ("1e+21"); the hours and ids of the app are below 24.
- Non-integer hours: `hour` is a JavaScript number, modelled as an integer.
- app/settings.tsx, the Android `ChimeModule.kt` and `ChimeReceiver.kt`, and `globals.tsx`: screen markup, a platform alarm wrapper, a Toast, and constants.
- Weekday selection: it is not implemented in this code.
