/**
  The chime table of app/index.tsx: the `Chime` record, the 12-hour label of
  an hour, the 24 default chimes, and the by-id operations that the toggle
  uses (find the chime, flip its switch, overwrite its scheduler state).
 */
module Chimes {
  import opened Wrappers
  import opened Decimal

  /** One row of the table; `identifier` is the scheduler's handle, or null. */
  datatype Chime = Chime(id: string, time: string, hour: int, enabled: bool, identifier: Option<string>)

  /** The table always starts with one chime per hour of the day. */
  const HoursPerDay: nat := 24

  // ---------------------------------------------------------------------
  // 12-hour labels

  /** JavaScript's `%`: the remainder takes the sign of the dividend. */
  function JsRemainder(a: int, b: int): (r: int)
    requires b > 0
    ensures -b < r < b
    ensures a >= 0 ==> 0 <= r && r == a % b
    ensures a <= 0 ==> r <= 0
  {
    if a >= 0 then a % b else -((-a) % b)
  }

  /** `hour % 12 || 12`: a zero remainder is falsy and becomes 12. */
  function Hour12(hour: int): (h: int)
    ensures hour >= 0 ==> 1 <= h <= 12
  {
    var r := JsRemainder(hour, 12);
    if r == 0 then 12 else r
  }

  function Period(hour: int): (p: string)
    ensures p == "AM" || p == "PM"
    ensures p == "AM" <==> hour < 12
  {
    if hour < 12 then "AM" else "PM"
  }

  /** The label shown for a chime, "<hour12>:00 <period>". */
  function FormatTime12Hour(hour: int): (s: string)
    ensures 7 <= |s|
    ensures s[|s| - 6..] == (if hour < 12 then ":00 AM" else ":00 PM")
    ensures hour >= 0 ==> ParseNat(s[..|s| - 6]) == Some(Hour12(hour))
  {
    var digits := IntToString(Hour12(hour));
    var s := digits + ":00 " + Period(hour);
    assert s[..|s| - 6] == digits;
    assert s[|s| - 6..] == ":00 " + Period(hour);
    s
  }

  /** The 24-hour clock hour that a 12-hour reading denotes. */
  function To24Hour(hour12: int, period: string): int {
    if period == "AM" then hour12 % 12 else hour12 % 12 + 12
  }

  /** Reads a label of the form FormatTime12Hour produces for 0..23. */
  function ParseTime12Hour(text: string): Option<int> {
    if |text| < 7 then None
    else
      var digits, suffix := text[..|text| - 6], text[|text| - 6..];
      if suffix != ":00 AM" && suffix != ":00 PM" then None
      else match ParseNat(digits)
        case None => None
        case Some(h12) => if 1 <= h12 <= 12 then Some(To24Hour(h12, suffix[4..])) else None
  }

  lemma FormatTime12HourShape(hour: int)
    requires 0 <= hour < HoursPerDay
    ensures 1 <= Hour12(hour) <= 12
    ensures Period(hour) == "AM" <==> hour < 12
    ensures Period(hour) == "PM" <==> hour >= 12
    ensures Hour12(hour) == 12 <==> hour == 0 || hour == 12
    ensures FormatTime12Hour(hour) == NatToString(Hour12(hour)) + ":00 " + Period(hour)
  {
  }

  /** The 12-hour reading of an hour converts back to that hour. */
  lemma To24HourInverts(hour: int)
    requires 0 <= hour < HoursPerDay
    ensures To24Hour(Hour12(hour), Period(hour)) == hour
  {
  }

  lemma {:induction false} ParseFormatTime12Hour(hour: int)
    requires 0 <= hour < HoursPerDay
    ensures ParseTime12Hour(FormatTime12Hour(hour)) == Some(hour)
  {
    var digits := NatToString(Hour12(hour));
    var text := FormatTime12Hour(hour);
    FormatTime12HourShape(hour);
    assert text[..|text| - 6] == digits;
    assert text[|text| - 6..] == ":00 " + Period(hour);
    ParseNatToString(Hour12(hour));
    To24HourInverts(hour);
  }

  /** No two hours of the day share a label. */
  lemma FormatTime12HourInjective(a: int, b: int)
    requires 0 <= a < HoursPerDay && 0 <= b < HoursPerDay
    ensures FormatTime12Hour(a) == FormatTime12Hour(b) ==> a == b
  {
    ParseFormatTime12Hour(a);
    ParseFormatTime12Hour(b);
  }

  // ---------------------------------------------------------------------
  // The default table

  /** The id of the default chime for an hour; the hour can be read back from it. */
  function ChimeId(hour: nat): (s: string)
    ensures 6 < |s| && s[..6] == "chime-"
    ensures ParseNat(s[6..]) == Some(hour)
  {
    var s := "chime-" + NatToString(hour);
    assert s[6..] == NatToString(hour);
    ParseNatToString(hour);
    s
  }

  /** A disabled, unscheduled chime for an hour. */
  function DefaultChime(hour: nat): (c: Chime)
    ensures c.hour == hour && !c.enabled && c.identifier == None
    ensures c.id == ChimeId(hour)
    ensures hour < HoursPerDay ==> ParseTime12Hour(c.time) == Some(hour)
  {
    var c := Chime(ChimeId(hour), FormatTime12Hour(hour), hour, false, None);
    if hour < HoursPerDay then ParseFormatTime12Hour(hour); c else c
  }

  /** `generatechimes`: one disabled, unscheduled chime per hour, in hour order. */
  function GenerateChimes(): (cs: seq<Chime>)
    ensures |cs| == HoursPerDay
    ensures forall h :: 0 <= h < |cs| ==> cs[h].hour == h && !cs[h].enabled && cs[h].identifier == None
  {
    seq(HoursPerDay, hour requires 0 <= hour => DefaultChime(hour))
  }

  lemma GenerateChimesShape()
    ensures |GenerateChimes()| == HoursPerDay
    ensures forall h :: 0 <= h < HoursPerDay ==>
      var c := GenerateChimes()[h];
      c.hour == h && c.id == "chime-" + NatToString(h) && c.time == FormatTime12Hour(h)
      && !c.enabled && c.identifier == None
  {
  }

  predicate UniqueIds(cs: seq<Chime>) {
    forall i, j :: 0 <= i < j < |cs| ==> cs[i].id != cs[j].id
  }

  lemma ChimeIdInjective(a: nat, b: nat)
    ensures ChimeId(a) == ChimeId(b) ==> a == b
  {
    if ChimeId(a) == ChimeId(b) {
      assert NatToString(a) == ChimeId(a)[6..];
      assert NatToString(b) == ChimeId(b)[6..];
      NatToStringInjective(a, b);
    }
  }

  /** The default chimes can be told apart by id and by label. */
  lemma DefaultsDistinct()
    ensures UniqueIds(GenerateChimes())
    ensures forall i, j :: 0 <= i < j < |GenerateChimes()| ==>
      GenerateChimes()[i].time != GenerateChimes()[j].time
  {
    var cs := GenerateChimes();
    forall i, j | 0 <= i < j < |cs|
      ensures cs[i].id != cs[j].id && cs[i].time != cs[j].time
    {
      ChimeIdInjective(i, j);
      FormatTime12HourInjective(i, j);
    }
  }

  // ---------------------------------------------------------------------
  // By-id operations on the table

  /** `chimes.find(c => c.id === id)`: the first chime with that id. */
  function Find(cs: seq<Chime>, id: string): (r: Option<Chime>)
    ensures r.None? <==> forall i :: 0 <= i < |cs| ==> cs[i].id != id
    ensures r.Some? ==> r.value.id == id
    ensures r.Some? ==> exists k :: 0 <= k < |cs| && cs[k] == r.value && (forall j :: 0 <= j < k ==> cs[j].id != id)
  {
    if cs == [] then None
    else if cs[0].id == id then Some(cs[0])
    else
      var r := Find(cs[1..], id);
      assert forall i :: 1 <= i < |cs| ==> cs[i] == cs[1..][i - 1];
      r
  }

  /** The optimistic flip: every chime with that id has its switch inverted. */
  function Flip(cs: seq<Chime>, id: string): (r: seq<Chime>)
    ensures |r| == |cs|
    ensures forall i :: 0 <= i < |cs| ==>
      r[i].id == cs[i].id && r[i].time == cs[i].time && r[i].hour == cs[i].hour
      && r[i].identifier == cs[i].identifier && (r[i].enabled != cs[i].enabled <==> cs[i].id == id)
  {
    seq(|cs|, i requires 0 <= i < |cs| =>
      if cs[i].id == id then cs[i].(enabled := !cs[i].enabled) else cs[i])
  }

  /** The map of `updateChimeState`: every chime with that id gets the given scheduler state. */
  function SetChime(cs: seq<Chime>, id: string, identifier: Option<string>, enabled: bool): (r: seq<Chime>)
    ensures |r| == |cs|
    ensures forall i :: 0 <= i < |cs| && cs[i].id != id ==> r[i] == cs[i]
  {
    seq(|cs|, i requires 0 <= i < |cs| =>
      if cs[i].id == id then cs[i].(identifier := identifier, enabled := enabled) else cs[i])
  }

  /** Only the `enabled` and `identifier` fields of matching chimes change; nothing else does. */
  lemma SetChimeFrame(cs: seq<Chime>, id: string, identifier: Option<string>, enabled: bool)
    ensures |SetChime(cs, id, identifier, enabled)| == |cs|
    ensures forall i :: 0 <= i < |cs| ==>
      var c, d := cs[i], SetChime(cs, id, identifier, enabled)[i];
      d.id == c.id && d.time == c.time && d.hour == c.hour
      && (c.id == id ==> d.enabled == enabled && d.identifier == identifier)
      && (c.id != id ==> d == c)
  {
  }

  /** Overwriting a flipped chime forgets the flip. */
  lemma SetChimeAfterFlip(cs: seq<Chime>, id: string, identifier: Option<string>, enabled: bool)
    ensures SetChime(Flip(cs, id), id, identifier, enabled) == SetChime(cs, id, identifier, enabled)
  {
  }

  /** An id that matches no chime leaves the table as it is. */
  lemma NoMatchUnchanged(cs: seq<Chime>, id: string, identifier: Option<string>, enabled: bool)
    requires Find(cs, id).None?
    ensures Flip(cs, id) == cs && SetChime(cs, id, identifier, enabled) == cs
  {
  }
}
