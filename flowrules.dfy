/** The workflow engine of js/flowRules.js: status groups, the legality of a
    manual move, the lifecycle bucket an operation window puts a task in,
    and the operations that move a task and record its history. Each
    operation that changes a task in place is a method, proved to leave the
    task in the state a specification function of the old state computes;
    the lemmas state what the source promises about those functions. */
module FlowRules {
  import opened Common
  import opened Data

  const TRANSMIT_STATUSES: seq<string> := ["released", "qm-xmit", "swo-xmit", "awaiting-ack"]
  const BACK_ROUTE_STATUSES: seq<string> := ["qm-br", "swo-br", "anav-br", "reo-br"]
  const LIFECYCLE_STATUSES: seq<string> := ["approved", "active", "wasp-deletions", "filed"]

  /** getGroupForStatus: the workflow group a status belongs to. */
  function GroupForStatus(status: string): (g: string)
    ensures g == "Front-Route" <==> status in FRONT_ROUTE_STATUSES
    ensures g == "Transmit-Section" <==> status in TRANSMIT_STATUSES
    ensures g == "Back-Route" <==> status in BACK_ROUTE_STATUSES
    ensures g == "Lifecycle" <==> status in LIFECYCLE_STATUSES
    ensures g == "Unknown" <==> status !in FRONT_ROUTE_STATUSES + TRANSMIT_STATUSES
                                           + BACK_ROUTE_STATUSES + LIFECYCLE_STATUSES
  {
    if status in FRONT_ROUTE_STATUSES then "Front-Route"
    else if status in TRANSMIT_STATUSES then "Transmit-Section"
    else if status in BACK_ROUTE_STATUSES then "Back-Route"
    else if status in LIFECYCLE_STATUSES then "Lifecycle"
    else "Unknown"
  }

  // ---------------------------------------------------------------------------
  // Legality of a move

  /** isTransitionAllowed: may a task move from `from` to `to` by hand?
      "" stands for a missing target; `fullBackRoute` is the task's
      backRouteFullRequired flag. */
  predicate IsTransitionAllowed(fullBackRoute: bool, from: string, to: string)
    ensures IsTransitionAllowed(fullBackRoute, from, to) ==> to != ""
    ensures to != "" && from == to ==> IsTransitionAllowed(fullBackRoute, from, to)
  {
    if to == "" then false
    else if from == to then true
    else if from == "qmow" then to == "anav" || to == "swo"
    else if from == "anav" then to == "swo" || to == "reo" || to == "qmow"
    else if from == "swo" then to == "anav" || to == "reo" || to == "qmow"
    else if from == "reo" then to == "qmow" || to == "released"
    else if from == "released" then to == "qm-xmit"
    else if from == "qm-xmit" then to == "swo-xmit"
    else if from == "swo-xmit" then to == "awaiting-ack"
    else if from == "awaiting-ack" then to == "qm-br"
    else if from == "qm-br" then to == "swo-br"
    else if from == "swo-br" then fullBackRoute && to == "anav-br"
    else if from == "anav-br" then fullBackRoute && to == "reo-br"
    else if from == "reo-br" then false
    else if from == "wasp-deletions" then to == "filed"
    else false
  }

  /** The manual moves every task may make, besides staying put. */
  const MANUAL_MOVES: set<(string, string)> := {
    ("qmow", "anav"), ("qmow", "swo"),
    ("anav", "swo"), ("anav", "reo"), ("anav", "qmow"),
    ("swo", "anav"), ("swo", "reo"), ("swo", "qmow"),
    ("reo", "qmow"), ("reo", "released"),
    ("released", "qm-xmit"), ("qm-xmit", "swo-xmit"), ("swo-xmit", "awaiting-ack"),
    ("awaiting-ack", "qm-br"), ("qm-br", "swo-br"),
    ("wasp-deletions", "filed")}

  /** The moves only a task that needs the full back route may make. */
  const FULL_BACK_ROUTE_MOVES: set<(string, string)> := {("swo-br", "anav-br"), ("anav-br", "reo-br")}

  /** The legality table: a move is allowed exactly when the target is given
      and is the current status, a manual move, or a full-back-route move of
      a task that needs the full back route. */
  lemma TransitionTable(fullBackRoute: bool, from: string, to: string)
    ensures IsTransitionAllowed(fullBackRoute, from, to)
      <==> to != "" && (from == to || (from, to) in MANUAL_MOVES
                        || (fullBackRoute && (from, to) in FULL_BACK_ROUTE_MOVES))
  {
  }

  /** approved, active, filed, reo-br and every status outside the four
      groups have no manual exit: the only move allowed is to stay. An empty
      target is refused even from an empty status. */
  lemma NoManualExit(fullBackRoute: bool, from: string, to: string)
    requires from in ["approved", "active", "filed", "reo-br"] || GroupForStatus(from) == "Unknown"
    ensures IsTransitionAllowed(fullBackRoute, from, to) <==> to != "" && to == from
  {
  }

  /** The two back-route moves the flag gates, and the one exit of swo-br. */
  lemma BackRouteGate(fullBackRoute: bool, to: string)
    ensures IsTransitionAllowed(fullBackRoute, "swo-br", "anav-br") == fullBackRoute
    ensures IsTransitionAllowed(fullBackRoute, "anav-br", "reo-br") == fullBackRoute
    ensures IsTransitionAllowed(fullBackRoute, "swo-br", to) && to != "swo-br"
      <==> fullBackRoute && to == "anav-br"
  {
  }

  // ---------------------------------------------------------------------------
  // The lifecycle bucket

  /** determineLifecycleStatus: approved before the operation starts, active
      from its start to its end (both inclusive; for ever when there is no
      end), wasp-deletions after the end or when there is no start. A start
      or end of 0 counts as absent, as a falsy number does in the source. */
  function DetermineLifecycleStatus(opStart: Option<int>, opEnd: Option<int>, now: int): (s: string)
    ensures s == "approved" <==> Truthy(opStart) && now < opStart.value
    ensures s == "active" <==>
      Truthy(opStart) && opStart.value <= now && (!Truthy(opEnd) || now <= opEnd.value)
    ensures s == "wasp-deletions" <==>
      !Truthy(opStart) || (opStart.value <= now && Truthy(opEnd) && opEnd.value < now)
  {
    if Truthy(opStart) && now < opStart.value then "approved"
    else if Truthy(opStart) && (!Truthy(opEnd) || now <= opEnd.value) then "active"
    else "wasp-deletions"
  }

  /** The order a task passes through the lifecycle buckets. */
  function LifecycleRank(s: string): nat
  {
    if s == "approved" then 0 else if s == "active" then 1 else 2
  }

  /** As time passes a task only moves forward through the buckets. */
  lemma LifecycleMonotone(opStart: Option<int>, opEnd: Option<int>, earlier: int, later: int)
    requires earlier <= later
    ensures LifecycleRank(DetermineLifecycleStatus(opStart, opEnd, earlier))
         <= LifecycleRank(DetermineLifecycleStatus(opStart, opEnd, later))
  {
  }

  /** Every bucket belongs to the Lifecycle group. */
  lemma LifecycleBucketGroup(opStart: Option<int>, opEnd: Option<int>, now: int)
    ensures GroupForStatus(DetermineLifecycleStatus(opStart, opEnd, now)) == "Lifecycle"
  {
  }

  // ---------------------------------------------------------------------------
  // History entries

  /** The options of applyStatusChange; "" and the empty map stand for an
      option that is not given. */
  datatype ChangeOptions = ChangeOptions(actor: string, reason: string, eventType: string, meta: map<string, Value>)

  /** The action text of a status change: the reason if given, otherwise
      the default sentence naming both statuses and the actor. */
  function ActionText(oldStatus: string, newStatus: string, options: ChangeOptions): string
  {
    var actor := if options.actor != "" then options.actor else "User A";
    if options.reason != "" then options.reason
    else "Status changed from " + ToUpper(oldStatus) + " to " + ToUpper(newStatus) + " by " + actor + "."
  }

  /** The entry a status change appends: timestamp and action, the event
      type if given, and the metadata keys, which override the others. */
  function StatusEntry(oldStatus: string, newStatus: string, options: ChangeOptions, now: int): (e: HistoryEntry)
    ensures e.Keys == {"timestamp", "action"} + (if options.eventType != "" then {"type"} else {})
                      + options.meta.Keys
    ensures forall k :: k in options.meta ==> e[k] == options.meta[k]
    ensures "timestamp" !in options.meta ==> e["timestamp"] == Instant(now)
    ensures "action" !in options.meta ==> e["action"] == Text(ActionText(oldStatus, newStatus, options))
    ensures "type" !in options.meta && options.eventType != "" ==> e["type"] == Text(options.eventType)
  {
    var entry := map["timestamp" := Instant(now), "action" := Text(ActionText(oldStatus, newStatus, options))];
    var typed := if options.eventType != "" then entry["type" := Text(options.eventType)] else entry;
    typed + options.meta
  }

  function BackRouteCompleteEntry(completionStatus: string, lifecycleStatus: string, now: int): HistoryEntry
  {
    map["timestamp" := Instant(now),
        "action" := Text("Back Route complete at " + ToUpper(completionStatus) + "; moved to "
                         + ToUpper(lifecycleStatus) + " based on operation dates.")]
  }

  function LifecycleAutoUpdateEntry(oldStatus: string, desired: string, now: int): HistoryEntry
  {
    map["timestamp" := Instant(now),
        "action" := Text("Lifecycle auto-update from " + ToUpper(oldStatus) + " to "
                         + ToUpper(desired) + " based on operation dates.")]
  }

  // ---------------------------------------------------------------------------
  // Specification of the operations, on the task's writable fields

  /** The two flag/status combinations in which the back route is complete. */
  predicate AutoCompletes(fullBackRoute: bool, status: string)
  {
    (status == "swo-br" && !fullBackRoute) || (status == "reo-br" && fullBackRoute)
  }

  /** handleBackRouteCompletion: the task moves to its lifecycle bucket. */
  function CompleteBackRoute(s: TaskState, completionStatus: string, opStart: Option<int>,
                             opEnd: Option<int>, now: int): TaskState
  {
    var lifecycleStatus := DetermineLifecycleStatus(opStart, opEnd, now);
    s.(status := lifecycleStatus, group := GroupForStatus(lifecycleStatus), timeInCurrentStatus := now,
       history := s.history + [BackRouteCompleteEntry(completionStatus, lifecycleStatus, now)])
  }

  /** handlePostStatusTransition: the group follows the new status, and the
      back route completes at swo-br (flag off) or reo-br (flag on). */
  function PostTransition(s: TaskState, fullBackRoute: bool, opStart: Option<int>, opEnd: Option<int>,
                          newStatus: string, now: int): TaskState
  {
    var grouped := s.(group := GroupForStatus(newStatus));
    if newStatus == "swo-br" && !fullBackRoute then CompleteBackRoute(grouped, newStatus, opStart, opEnd, now)
    else if newStatus == "reo-br" && fullBackRoute then CompleteBackRoute(grouped, newStatus, opStart, opEnd, now)
    else grouped
  }

  /** applyStatusChange: whether the move was made, and the task after it. */
  function StatusChange(s: TaskState, fullBackRoute: bool, opStart: Option<int>, opEnd: Option<int>,
                        newStatus: string, options: ChangeOptions, now: int): (bool, TaskState)
  {
    if !IsTransitionAllowed(fullBackRoute, s.status, newStatus) then (false, s)
    else
      var moved := s.(status := newStatus, group := GroupForStatus(newStatus), timeInCurrentStatus := now,
                      history := s.history + [StatusEntry(s.status, newStatus, options, now)]);
      (true, PostTransition(moved, fullBackRoute, opStart, opEnd, newStatus, now))
  }

  /** A refused move returns false and leaves the task as it was; an allowed
      one returns true. */
  lemma StatusChangeRefusal(s: TaskState, fullBackRoute: bool, opStart: Option<int>, opEnd: Option<int>,
                            newStatus: string, options: ChangeOptions, now: int)
    ensures var (ok, t) := StatusChange(s, fullBackRoute, opStart, opEnd, newStatus, options, now);
      (ok <==> IsTransitionAllowed(fullBackRoute, s.status, newStatus)) && (!ok ==> t == s)
  {
  }

  /** After an allowed move: the history grows by the status entry, and by a
      back-route completion entry exactly when the move completes the back
      route; the task then rests in its lifecycle bucket, or else in the new
      status; the group matches the status; the clock is reset; the
      metadata is untouched; and the task never rests in a completing state. */
  lemma StatusChangeEffect(s: TaskState, fullBackRoute: bool, opStart: Option<int>, opEnd: Option<int>,
                           newStatus: string, options: ChangeOptions, now: int)
    requires IsTransitionAllowed(fullBackRoute, s.status, newStatus)
    ensures var (ok, t) := StatusChange(s, fullBackRoute, opStart, opEnd, newStatus, options, now);
      var n := |s.history|;
      && ok
      && t.history[..n] == s.history
      && t.history[n] == StatusEntry(s.status, newStatus, options, now)
      && (if AutoCompletes(fullBackRoute, newStatus) then
            var l := DetermineLifecycleStatus(opStart, opEnd, now);
            && |t.history| == n + 2 && t.status == l
            && t.history[n + 1] == BackRouteCompleteEntry(newStatus, l, now)
          else |t.history| == n + 1 && t.status == newStatus)
      && t.group == GroupForStatus(t.status)
      && t.timeInCurrentStatus == now
      && !AutoCompletes(fullBackRoute, t.status)
      && t.unitName == s.unitName && t.operationName == s.operationName
      && t.dtg == s.dtg && t.dtgDate == s.dtgDate
  {
    var moved := s.(status := newStatus, group := GroupForStatus(newStatus), timeInCurrentStatus := now,
                    history := s.history + [StatusEntry(s.status, newStatus, options, now)]);
    var t := StatusChange(s, fullBackRoute, opStart, opEnd, newStatus, options, now).1;
    assert t == PostTransition(moved, fullBackRoute, opStart, opEnd, newStatus, now);
    if AutoCompletes(fullBackRoute, newStatus) {
      var l := DetermineLifecycleStatus(opStart, opEnd, now);
      assert t.history == moved.history + [BackRouteCompleteEntry(newStatus, l, now)];
      assert t.history[..|s.history|] == s.history;
    } else {
      assert t.history == moved.history;
      assert !AutoCompletes(fullBackRoute, t.status);
    }
  }

  /** Moving to the current status is allowed whenever that status is not
      empty, and records an entry without changing the status. */
  lemma SameStatusMove(s: TaskState, fullBackRoute: bool, opStart: Option<int>, opEnd: Option<int>,
                       options: ChangeOptions, now: int)
    requires s.status != "" && !AutoCompletes(fullBackRoute, s.status)
    ensures var (ok, t) := StatusChange(s, fullBackRoute, opStart, opEnd, s.status, options, now);
      ok && t.status == s.status && |t.history| == |s.history| + 1
  {
    StatusChangeEffect(s, fullBackRoute, opStart, opEnd, s.status, options, now);
  }

  /** enforceLifecycleAutoMoves, for one task: an approved or active task
      whose bucket has changed moves to it with one entry; any other task is
      left as it is. */
  function LifecycleAutoMove(s: TaskState, opStart: Option<int>, opEnd: Option<int>, now: int): TaskState
  {
    if s.status != "approved" && s.status != "active" then s
    else
      var desired := DetermineLifecycleStatus(opStart, opEnd, now);
      if desired == s.status then s
      else s.(status := desired, group := GroupForStatus(desired), timeInCurrentStatus := now,
              history := s.history + [LifecycleAutoUpdateEntry(s.status, desired, now)])
  }

  /** The sweep touches only approved and active tasks whose bucket differs,
      appending exactly one entry to each, and leaves every task settled. */
  lemma AutoMoveEffect(s: TaskState, opStart: Option<int>, opEnd: Option<int>, now: int)
    ensures var t := LifecycleAutoMove(s, opStart, opEnd, now);
      var desired := DetermineLifecycleStatus(opStart, opEnd, now);
      && (t != s <==> (s.status == "approved" || s.status == "active") && desired != s.status)
      && (t != s ==> t.status == desired && t.group == GroupForStatus(desired)
                     && t.history == s.history + [LifecycleAutoUpdateEntry(s.status, desired, now)])
      && (t.status == "approved" || t.status == "active" ==> t.status == desired)
  {
    var t := LifecycleAutoMove(s, opStart, opEnd, now);
    if (s.status == "approved" || s.status == "active") && DetermineLifecycleStatus(opStart, opEnd, now) != s.status {
      assert t.status != s.status;
    }
  }

  /** A second sweep at the same instant changes nothing. */
  lemma AutoMoveIdempotent(s: TaskState, opStart: Option<int>, opEnd: Option<int>, now: int)
    ensures LifecycleAutoMove(LifecycleAutoMove(s, opStart, opEnd, now), opStart, opEnd, now)
         == LifecycleAutoMove(s, opStart, opEnd, now)
  {
    AutoMoveEffect(s, opStart, opEnd, now);
  }

  /** A task whose bucket was right at an earlier instant only moves forward. */
  lemma AutoMoveForward(s: TaskState, opStart: Option<int>, opEnd: Option<int>, earlier: int, now: int)
    requires earlier <= now && s.status == DetermineLifecycleStatus(opStart, opEnd, earlier)
    ensures LifecycleRank(s.status) <= LifecycleRank(LifecycleAutoMove(s, opStart, opEnd, now).status)
  {
    LifecycleMonotone(opStart, opEnd, earlier, now);
  }

  // ---------------------------------------------------------------------------
  // The operations, in place

  /** handleBackRouteCompletion, in place. */
  method HandleBackRouteCompletion(task: Task, completionStatus: string, now: int)
    modifies task
    ensures task.State() == CompleteBackRoute(old(task.State()), completionStatus, task.opStart, task.opEnd, now)
  {
    var lifecycleStatus := DetermineLifecycleStatus(task.opStart, task.opEnd, now);
    var oldStatus := completionStatus;
    task.status := lifecycleStatus;
    task.group := GroupForStatus(lifecycleStatus);
    task.timeInCurrentStatus := now;
    task.history := task.history + [BackRouteCompleteEntry(oldStatus, lifecycleStatus, now)];
  }

  /** handlePostStatusTransition, in place. */
  method HandlePostStatusTransition(task: Task, oldStatus: string, newStatus: string, now: int)
    modifies task
    ensures task.State() == PostTransition(old(task.State()), task.backRouteFullRequired,
                                           task.opStart, task.opEnd, newStatus, now)
  {
    task.group := GroupForStatus(newStatus);
    if newStatus == "swo-br" && !task.backRouteFullRequired {
      HandleBackRouteCompletion(task, newStatus, now);
    } else if newStatus == "reo-br" && task.backRouteFullRequired {
      HandleBackRouteCompletion(task, newStatus, now);
    }
  }

  /** applyStatusChange, in place: the guard, the new status, the entry
      built key by key, then the follow-on hook. */
  method ApplyStatusChange(task: Task, newStatus: string, options: ChangeOptions, now: int) returns (ok: bool)
    modifies task
    ensures (ok, task.State()) == StatusChange(old(task.State()), task.backRouteFullRequired,
                                               task.opStart, task.opEnd, newStatus, options, now)
  {
    var oldStatus := task.status;
    if !IsTransitionAllowed(task.backRouteFullRequired, oldStatus, newStatus) {
      return false;
    }
    task.status := newStatus;
    task.group := GroupForStatus(newStatus);
    task.timeInCurrentStatus := now;

    var actionText := ActionText(oldStatus, newStatus, options);
    var entry := map["timestamp" := Instant(now), "action" := Text(actionText)];
    if options.eventType != "" {
      entry := entry["type" := Text(options.eventType)];
    }
    if options.meta != map[] {
      entry := entry + options.meta;
    }
    assert entry == StatusEntry(oldStatus, newStatus, options, now);
    task.history := task.history + [entry];

    HandlePostStatusTransition(task, oldStatus, newStatus, now);
    ok := true;
  }

  /** The per-task callback of enforceLifecycleAutoMoves' forEach. */
  method AutoMoveTask(task: Task, now: int)
    modifies task
    ensures task.State() == LifecycleAutoMove(old(task.State()), task.opStart, task.opEnd, now)
  {
    if task.status != "approved" && task.status != "active" {
      return;
    }
    var desired := DetermineLifecycleStatus(task.opStart, task.opEnd, now);
    if desired == task.status {
      return;
    }
    var oldStatus := task.status;
    task.status := desired;
    task.group := GroupForStatus(desired);
    task.timeInCurrentStatus := now;
    task.history := task.history + [LifecycleAutoUpdateEntry(oldStatus, desired, now)];
  }

  /** enforceLifecycleAutoMoves: every task on the board is swept once. Ids
      are distinct on a valid board, so each sweep step changes one task. */
  method EnforceLifecycleAutoMoves(board: Board, now: int)
    requires board.Valid()
    modifies board.tasks
    ensures forall i :: 0 <= i < |board.tasks| ==>
      board.tasks[i].State() == LifecycleAutoMove(old(board.tasks[i].State()),
                                                  board.tasks[i].opStart, board.tasks[i].opEnd, now)
  {
    var i := 0;
    while i < |board.tasks|
      invariant 0 <= i <= |board.tasks|
      invariant forall j :: 0 <= j < i ==>
        board.tasks[j].State() == LifecycleAutoMove(old(board.tasks[j].State()),
                                                    board.tasks[j].opStart, board.tasks[j].opEnd, now)
      invariant forall j :: i <= j < |board.tasks| ==> board.tasks[j].State() == old(board.tasks[j].State())
    {
      var task := board.tasks[i];
      forall j | 0 <= j < |board.tasks| && j != i
        ensures board.tasks[j] != task
      {
        ValidTasksDistinct(board, i, j);
      }
      AutoMoveTask(task, now);
      i := i + 1;
    }
  }
}
