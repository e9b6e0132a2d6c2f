/** Urgency of a task from its deadline and the current instant, the card
    shadow for each tier, and the sort comparator (lib/urgency.ts). The
    current instant, `Date.now()` in the source, is the parameter `now`;
    instants are milliseconds since 1970-01-01T00:00:00Z. */
module Urgency {
  import opened Wrappers
  import opened JsDate
  import opened Datetime

  datatype TaskUrgency = Critical | Warning | Normal

  /** Hours left until the deadline, or `None` for `NaN` when the deadline
      does not parse. */
  function HoursLeft(deadline: string, now: int): Option<real> {
    match ParseInstant(deadline)
    case None => None
    case Some(d) => Some((d - now) as real / 3600000.0)
  }

  /** `hours < bound`; every comparison with `NaN` is false. */
  predicate Below(hours: Option<real>, bound: real) {
    hours.Some? && hours.value < bound
  }

  /** `getTaskUrgency`: no deadline is normal; otherwise the chain past /
      under 24 hours / under 72 hours / otherwise. On reals this classifies
      exactly as the millisecond thresholds of `TierOf` do, and a deadline
      with no instant (`null`, empty, or `NaN`) is normal. */
  function GetTaskUrgency(deadline: Option<string>, now: int): (u: TaskUrgency)
    ensures u == match DeadlineInstant(deadline)
                 case None => Normal
                 case Some(d) => TierOf(d - now)
  {
    if deadline == None || deadline.value == "" then Normal
    else
      var hours := HoursLeft(deadline.value, now);
      var ms := match ParseInstant(deadline.value) case None => 0 case Some(d) => d - now;
      HoursBelow(ms, 0);
      HoursBelow(ms, 24);
      HoursBelow(ms, 72);
      if Below(hours, 0.0) then Critical
      else if Below(hours, 24.0) then Critical
      else if Below(hours, 72.0) then Warning
      else Normal
  }

  /** The tier for a number of milliseconds left, in integer arithmetic. */
  function TierOf(msLeft: int): (u: TaskUrgency)
    ensures u == Critical <==> msLeft < 24 * MsPerHour
    ensures u == Warning <==> 24 * MsPerHour <= msLeft < 72 * MsPerHour
    ensures u == Normal <==> 72 * MsPerHour <= msLeft
  {
    if msLeft < 24 * MsPerHour then Critical
    else if msLeft < 72 * MsPerHour then Warning
    else Normal
  }

  /** `ms / 3600000 < h` exactly when `ms < h` hours in milliseconds. */
  lemma HoursBelow(ms: int, h: int)
    ensures ms as real / 3600000.0 < h as real <==> ms < h * MsPerHour
  {
    if ms < h * MsPerHour {
      assert ms as real < (h * MsPerHour) as real;
    } else {
      assert ms as real >= (h * MsPerHour) as real;
    }
  }

  /** A deadline at or before now is critical. */
  lemma PastDeadlineIsCritical(deadline: Option<string>, now: int)
    requires DeadlineInstant(deadline).Some? && DeadlineInstant(deadline).value <= now
    ensures GetTaskUrgency(deadline, now) == Critical
  {
  }

  /** A missing, empty or unreadable deadline is normal. */
  lemma NoInstantIsNormal(deadline: Option<string>, now: int)
    requires DeadlineInstant(deadline).None?
    ensures GetTaskUrgency(deadline, now) == Normal
  {
  }

  /** Position in the sort order: critical first, normal last. */
  function Rank(u: TaskUrgency): (r: nat)
    ensures r <= 2
    ensures r == 0 <==> u == Critical
    ensures r == 1 <==> u == Warning
    ensures r == 2 <==> u == Normal
  {
    match u
    case Critical => 0
    case Warning => 1
    case Normal => 2
  }

  /** At a fixed instant, a later deadline is never more urgent than an
      earlier one, and one without an instant ranks with the latest. */
  lemma LaterDeadlineNotMoreUrgent(a: Option<string>, b: Option<string>, now: int)
    requires DeadlineInstant(a).Some?
    requires DeadlineInstant(b).Some? ==> DeadlineInstant(a).value <= DeadlineInstant(b).value
    ensures Rank(GetTaskUrgency(a, now)) <= Rank(GetTaskUrgency(b, now))
  {
  }

  /** As time passes, a task only becomes more urgent. */
  lemma UrgencyGrowsWithTime(deadline: Option<string>, now: int, later: int)
    requires now <= later
    ensures Rank(GetTaskUrgency(deadline, later)) <= Rank(GetTaskUrgency(deadline, now))
  {
  }

  /** `getUrgencyShadow`: the card shadow of a tier. */
  function GetUrgencyShadow(u: TaskUrgency): (s: string)
    ensures UrgencyOfShadow(s) == Some(u)
  {
    match u
    case Critical => "shadow-[4px_4px_0px_0px_#FF0000]"
    case Warning => "shadow-[4px_4px_0px_0px_#FFDE59]"
    case Normal => "shadow-[4px_4px_0px_0px_#000000]"
  }

  /** Which tier a shadow class belongs to, by its colour. */
  function UrgencyOfShadow(s: string): Option<TaskUrgency> {
    if |s| < 8 then None
    else
      var colour := s[|s| - 8..];
      if colour == "#FF0000]" then Some(Critical)
      else if colour == "#FFDE59]" then Some(Warning)
      else if colour == "#000000]" then Some(Normal)
      else None
  }

  /** `compareByUrgency`: the difference of the two ranks; negative when
      the first deadline is strictly more urgent, zero for the same tier
      (no tie-break), positive when the second is. */
  function CompareByUrgency(a: Option<string>, b: Option<string>, now: int): (r: int)
    ensures -2 <= r <= 2
    ensures r < 0 <==> Rank(GetTaskUrgency(a, now)) < Rank(GetTaskUrgency(b, now))
    ensures r == 0 <==> GetTaskUrgency(a, now) == GetTaskUrgency(b, now)
  {
    Rank(GetTaskUrgency(a, now)) - Rank(GetTaskUrgency(b, now))
  }

  /** The comparator is a total preorder: reflexive, antisymmetric and
      transitive, so sorting by it is well defined up to ties. */
  lemma CompareByUrgencyIsPreorder(a: Option<string>, b: Option<string>, c: Option<string>, now: int)
    ensures CompareByUrgency(a, a, now) == 0
    ensures CompareByUrgency(a, b, now) == -CompareByUrgency(b, a, now)
    ensures (CompareByUrgency(a, b, now) <= 0 && CompareByUrgency(b, c, now) <= 0)
              ==> CompareByUrgency(a, c, now) <= 0
  {
  }

  /** Sorting by the comparator puts earlier deadlines no later than later ones. */
  lemma CompareFollowsDeadlines(a: Option<string>, b: Option<string>, now: int)
    requires DeadlineInstant(a).Some? && DeadlineInstant(b).Some? && DeadlineInstant(a).value <= DeadlineInstant(b).value
    ensures CompareByUrgency(a, b, now) <= 0
  {
    LaterDeadlineNotMoreUrgent(a, b, now);
  }
}
