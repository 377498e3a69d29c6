/** The priority classifier of js/priority.js: a task is ShortNotice when its
    operation starts within the next 72 hours, NoActionTaken when it has sat
    on the front route for more than 72 hours since creation, and Routine
    otherwise; each category has a severity class. */
module Priority {
  import opened Common
  import opened Data
  import opened FlowRules

  /** 72 hours in milliseconds. */
  const SEVENTY_TWO_HOURS: int := 72 * 60 * 60 * 1000

  /** Time since creation; 0 when the creation time is missing. An
      unparseable creation time is also None: its NaN difference fails the
      comparison with 72 hours exactly as 0 does. */
  function Elapsed(creationTime: Option<int>, now: int): int
  {
    if creationTime.Some? then now - creationTime.value else 0
  }

  /** The operation starts within the next 72 hours, strictly. */
  predicate StartsSoon(opStart: Option<int>, now: int)
  {
    Truthy(opStart) && 0 < opStart.value - now < SEVENTY_TWO_HOURS
  }

  /** calculatePriority, for a task in `status` at instant `now`. */
  function CalculatePriority(status: string, opStart: Option<int>, creationTime: Option<int>, now: int): (p: string)
    ensures p == "ShortNotice" <==> StartsSoon(opStart, now)
    ensures p == "NoActionTaken" <==>
      !StartsSoon(opStart, now) && status in FRONT_ROUTE_STATUSES && Elapsed(creationTime, now) > SEVENTY_TWO_HOURS
    ensures p == "Routine" <==>
      !StartsSoon(opStart, now) && (status !in FRONT_ROUTE_STATUSES || Elapsed(creationTime, now) <= SEVENTY_TWO_HOURS)
  {
    var timeToStart := if Truthy(opStart) then opStart.value - now else 0;
    var timeSinceCreation := Elapsed(creationTime, now);
    if Truthy(opStart) && timeToStart < SEVENTY_TWO_HOURS && timeToStart > 0 then "ShortNotice"
    else if status in FRONT_ROUTE_STATUSES && timeSinceCreation > SEVENTY_TWO_HOURS then "NoActionTaken"
    else "Routine"
  }

  /** getPriorityClass: the severity of a priority category. */
  function GetPriorityClass(calculatedPriority: string): (c: string)
    ensures c == "high" <==> calculatedPriority == "ShortNotice"
    ensures c == "medium" <==> calculatedPriority == "NoActionTaken"
    ensures c == "low" <==> calculatedPriority != "ShortNotice" && calculatedPriority != "NoActionTaken"
  {
    if calculatedPriority == "ShortNotice" then "high"
    else if calculatedPriority == "NoActionTaken" then "medium"
    else "low"
  }

  /** The classification is one of exactly three categories, and its class
      one of exactly three severities. */
  lemma PriorityCategories(status: string, opStart: Option<int>, creationTime: Option<int>, now: int)
    ensures CalculatePriority(status, opStart, creationTime, now) in {"ShortNotice", "NoActionTaken", "Routine"}
    ensures GetPriorityClass(CalculatePriority(status, opStart, creationTime, now)) in {"high", "medium", "low"}
  {
  }

  /** A short-notice task has not started yet: it is in the approved bucket. */
  lemma ShortNoticeIsApproved(status: string, opStart: Option<int>, opEnd: Option<int>,
                              creationTime: Option<int>, now: int)
    requires CalculatePriority(status, opStart, creationTime, now) == "ShortNotice"
    ensures DetermineLifecycleStatus(opStart, opEnd, now) == "approved"
  {
  }

  /** Only a front-route task can be NoActionTaken; once a task leaves the
      front route it is ShortNotice or Routine. */
  lemma NoActionTakenOnFrontRoute(status: string, opStart: Option<int>, creationTime: Option<int>, now: int)
    requires CalculatePriority(status, opStart, creationTime, now) == "NoActionTaken"
    ensures GroupForStatus(status) == "Front-Route"
  {
  }

  /** While a task stays in the same status, time does not lower its
      priority below NoActionTaken once it is overdue: it stays overdue or
      its operation comes within 72 hours. */
  lemma OverduePersists(status: string, opStart: Option<int>, creationTime: Option<int>, now: int, later: int)
    requires now <= later
    requires CalculatePriority(status, opStart, creationTime, now) == "NoActionTaken"
    ensures CalculatePriority(status, opStart, creationTime, later) != "Routine"
  {
    assert creationTime.Some?;
  }

  /** The short-notice window: for a start s, exactly the instants strictly
      between s - 72 h and s. */
  lemma ShortNoticeWindow(status: string, start: int, creationTime: Option<int>, now: int)
    requires start != 0
    ensures CalculatePriority(status, Some(start), creationTime, now) == "ShortNotice"
      <==> start - SEVENTY_TWO_HOURS < now < start
  {
  }

  /** A task created an hour ago whose operation starts in ten minutes is
      ShortNotice and shown as high. */
  lemma ShortNoticeExample(now: int)
    requires now > 3600000
    ensures CalculatePriority("qmow", Some(now + 600000), Some(now - 3600000), now) == "ShortNotice"
    ensures GetPriorityClass(CalculatePriority("qmow", Some(now + 600000), Some(now - 3600000), now)) == "high"
  {
  }

  /** A front-route task created four days ago whose operation is a week
      away is NoActionTaken and shown as medium. */
  lemma NoActionTakenExample(now: int)
    requires now > 345600000
    ensures CalculatePriority("swo", Some(now + 604800000), Some(now - 345600000), now) == "NoActionTaken"
    ensures GetPriorityClass("NoActionTaken") == "medium"
  {
  }
}
