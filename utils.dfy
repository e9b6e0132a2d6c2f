/** The urgency helpers of lib/utils.ts: a second copy of the classifier
    and the shadow table, and the border-and-background style table. The
    tiers are the ones of `Urgency`. */
module Utils {
  import opened Wrappers
  import opened JsDate
  import opened Datetime
  import opened Urgency

  /** `getTaskUrgency` as written in lib/utils.ts. An unreadable deadline
      makes every comparison false, which here is the `None` arm. */
  function GetTaskUrgency(deadline: Option<string>, now: int): (u: TaskUrgency)
    ensures u == Urgency.GetTaskUrgency(deadline, now)
  {
    if deadline == None || deadline.value == "" then Normal
    else
      match ParseInstant(deadline.value)
      case None => Normal
      case Some(d) =>
        var hours := (d - now) as real / 3600000.0;
        if hours < 0.0 then Critical
        else if hours < 24.0 then Critical
        else if hours < 72.0 then Warning
        else Normal
  }

  /** The past / under 24 hours / under 72 hours / otherwise chain of this
      copy, stated on milliseconds left. */
  lemma UtilsUrgencyChain(deadline: Option<string>, now: int)
    requires DeadlineInstant(deadline).Some?
    ensures var left := DeadlineInstant(deadline).value - now;
            && (left < 0 ==> GetTaskUrgency(deadline, now) == Critical)
            && (0 <= left < 24 * MsPerHour ==> GetTaskUrgency(deadline, now) == Critical)
            && (24 * MsPerHour <= left < 72 * MsPerHour ==> GetTaskUrgency(deadline, now) == Warning)
            && (72 * MsPerHour <= left ==> GetTaskUrgency(deadline, now) == Normal)
  {
  }

  /** `getUrgencyStyles`: a distinct border and background per tier. */
  function GetUrgencyStyles(u: TaskUrgency): (s: string)
    ensures TierOfStyle(s) == Some(u)
  {
    match u
    case Critical => "border-neo-red bg-red-50"
    case Warning => "border-neo-yellow bg-yellow-50"
    case Normal => "border-neo-black bg-white"
  }

  /** Which tier a style belongs to, by the first letter of its border
      colour. */
  function TierOfStyle(s: string): Option<TaskUrgency> {
    if |s| <= 11 || s[..11] != "border-neo-" then None
    else if s[11] == 'r' then Some(Critical)
    else if s[11] == 'y' then Some(Warning)
    else if s[11] == 'b' then Some(Normal)
    else None
  }

  const ShadowMap: map<TaskUrgency, string> := map[
    Critical := "shadow-[4px_4px_0px_0px_#FF0000]",
    Warning := "shadow-[4px_4px_0px_0px_#FFDE59]",
    Normal := "shadow-[4px_4px_0px_0px_#000000]"]

  /** `getUrgencyShadow` of lib/utils.ts: the same class as the one in
      lib/urgency.ts for every tier. */
  function GetUrgencyShadow(u: TaskUrgency): (s: string)
    ensures s == Urgency.GetUrgencyShadow(u)
  {
    assert u in ShadowMap.Keys by { assert ShadowMap.Keys == {Critical, Warning, Normal}; }
    ShadowMap[u]
  }
}
