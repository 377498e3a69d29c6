/** The task-store logic of the detail and create-task dialogs (js/modals.js):
    the status dropdown, whose moves back to QMOW need written feedback;
    the save of an edited unit, operation and DTG; and the creation of a
    task with its attachment records. What the user types or picks is a
    parameter, and so is the current instant. */
module Modals {
  import opened Common
  import opened Utils
  import opened Data
  import opened FlowRules

  // ---------------------------------------------------------------------------
  // Status dropdown and the return-to-QMOW feedback prompt

  /** How the feedback prompt is left: Submit with the text typed, or Cancel
      (the cancel button, the close button or a click on the overlay). */
  datatype PromptAction = Submit(reasonText: string) | Cancel

  /** The prompt's submit path: the trimmed text, or None while it is blank,
      in which case submit does nothing and the prompt stays open. */
  function FeedbackOf(reasonText: string): (feedback: Option<string>)
    ensures feedback.None? <==> Trim(reasonText) == ""
    ensures feedback.Some? ==> feedback.value == Trim(reasonText) && feedback.value != ""
    ensures feedback.Some? ==> !IsWhitespace(feedback.value[0]) && !IsWhitespace(feedback.value[|feedback.value| - 1])
  {
    var text := Trim(reasonText);
    if text == "" then None else Some(text)
  }

  /** What the dropdown shows afterwards, and why. */
  datatype DropdownOutcome =
    | TaskNotFound
    | SameStatus
    | Cancelled
    | AwaitingFeedback
    | Refused
    | Applied(shown: string)

  /** The options of a move back to QMOW with feedback. */
  function ReturnToQmowOptions(fromStatus: string, feedback: string): ChangeOptions
  {
    ChangeOptions(
      "User A",
      "Returned to QMOW from " + ToUpper(fromStatus) + " by User A (Modal Dropdown). Feedback: " + feedback,
      "return_to_qmow",
      map["from" := Text(fromStatus), "to" := Text("qmow"), "feedback" := Text(feedback),
          "source" := Text("modal_dropdown")])
  }

  /** The options of any other manual move. */
  function ManualChangeOptions(fromStatus: string, toStatus: string): ChangeOptions
  {
    ChangeOptions(
      "User A",
      "Status manually changed from " + ToUpper(fromStatus) + " to " + ToUpper(toStatus)
        + " by User A (Modal Dropdown).",
      "", map[])
  }

  /** handleStatusChange, for the task found: the outcome and the task after it. */
  function DropdownChange(s: TaskState, fullBackRoute: bool, opStart: Option<int>, opEnd: Option<int>,
                          newStatus: string, prompt: PromptAction, now: int): (r: (DropdownOutcome, TaskState))
    ensures r.0 == SameStatus <==> s.status == newStatus
    ensures !r.0.Applied? ==> r.1 == s
    ensures r.0.Applied? ==> r.0.shown == r.1.status && |r.1.history| > |s.history|
  {
    if s.status == newStatus then (SameStatus, s)
    else if newStatus == "qmow" && s.status != "qmow" then
      match prompt
      case Cancel => (Cancelled, s)
      case Submit(reasonText) =>
        match FeedbackOf(reasonText)
        case None => (AwaitingFeedback, s)
        case Some(feedback) =>
          Reported(StatusChange(s, fullBackRoute, opStart, opEnd, "qmow",
                                ReturnToQmowOptions(s.status, feedback), now))
    else
      Reported(StatusChange(s, fullBackRoute, opStart, opEnd, newStatus,
                            ManualChangeOptions(s.status, newStatus), now))
  }

  /** The dropdown after applyStatusChange: the task's status when the move
      was made, the old status again when it was refused. */
  function Reported(change: (bool, TaskState)): (DropdownOutcome, TaskState)
  {
    (if change.0 then Applied(change.1.status) else Refused, change.1)
  }

  /** Picking the current status does nothing. */
  lemma DropdownSameStatus(s: TaskState, fullBackRoute: bool, opStart: Option<int>, opEnd: Option<int>,
                           prompt: PromptAction, now: int)
    ensures DropdownChange(s, fullBackRoute, opStart, opEnd, s.status, prompt, now) == (SameStatus, s)
  {
  }

  /** The entry a move back to QMOW appends: a return_to_qmow event stamped
      now, whose action embeds the feedback and which carries the status it
      left, the target, the feedback and the dropdown as its origin. */
  lemma ReturnToQmowEntry(fromStatus: string, feedback: string, now: int)
    ensures var e := StatusEntry(fromStatus, "qmow", ReturnToQmowOptions(fromStatus, feedback), now);
      && e["type"] == Text("return_to_qmow") && e["feedback"] == Text(feedback)
      && e["from"] == Text(fromStatus) && e["to"] == Text("qmow") && e["source"] == Text("modal_dropdown")
      && e["timestamp"] == Instant(now)
      && e["action"] == Text("Returned to QMOW from " + ToUpper(fromStatus)
                             + " by User A (Modal Dropdown). Feedback: " + feedback)
  {
    var options := ReturnToQmowOptions(fromStatus, feedback);
    assert "type" !in options.meta && "timestamp" !in options.meta && "action" !in options.meta;
    assert ActionText(fromStatus, "qmow", options) == options.reason;
  }

  /** A move back to QMOW happens only through a submitted, non-blank
      feedback, and only from anav, swo or reo; it appends exactly the
      return_to_qmow entry and rests at qmow. Cancelling, or submitting blank
      text, changes nothing. */
  lemma ReturnToQmowGate(s: TaskState, fullBackRoute: bool, opStart: Option<int>, opEnd: Option<int>,
                         prompt: PromptAction, now: int)
    requires s.status != "qmow"
    ensures var (outcome, t) := DropdownChange(s, fullBackRoute, opStart, opEnd, "qmow", prompt, now);
      && (t != s <==> prompt.Submit? && Trim(prompt.reasonText) != "" && s.status in ["anav", "swo", "reo"])
      && (t != s ==>
            && outcome == Applied("qmow") && t.status == "qmow" && t.group == "Front-Route"
            && t.history == s.history + [StatusEntry(s.status, "qmow",
                                                     ReturnToQmowOptions(s.status, Trim(prompt.reasonText)), now)])
  {
    if prompt.Submit? && Trim(prompt.reasonText) != "" {
      var options := ReturnToQmowOptions(s.status, Trim(prompt.reasonText));
      TransitionTable(fullBackRoute, s.status, "qmow");
      if IsTransitionAllowed(fullBackRoute, s.status, "qmow") {
        StatusChangeEffect(s, fullBackRoute, opStart, opEnd, "qmow", options, now);
        var t := StatusChange(s, fullBackRoute, opStart, opEnd, "qmow", options, now).1;
        assert t.history == s.history + [StatusEntry(s.status, "qmow", options, now)];
        assert |t.history| != |s.history|;
      }
    }
  }

  /** Any other move is applied with the dropdown's reason text exactly when
      the workflow allows it; a refused move changes nothing. */
  lemma ManualDropdownMove(s: TaskState, fullBackRoute: bool, opStart: Option<int>, opEnd: Option<int>,
                           newStatus: string, prompt: PromptAction, now: int)
    requires newStatus != s.status && newStatus != "qmow"
    ensures var (outcome, t) := DropdownChange(s, fullBackRoute, opStart, opEnd, newStatus, prompt, now);
      && (outcome.Applied? <==> IsTransitionAllowed(fullBackRoute, s.status, newStatus))
      && (outcome == Refused <==> !IsTransitionAllowed(fullBackRoute, s.status, newStatus))
      && (outcome == Refused ==> t == s)
      && (outcome.Applied? ==>
            && outcome.shown == t.status && t.group == GroupForStatus(t.status)
            && |t.history| > |s.history| && t.history[..|s.history|] == s.history
            && t.history[|s.history|]["action"] == Text(ManualChangeOptions(s.status, newStatus).reason))
  {
    var options := ManualChangeOptions(s.status, newStatus);
    StatusChangeRefusal(s, fullBackRoute, opStart, opEnd, newStatus, options, now);
    if IsTransitionAllowed(fullBackRoute, s.status, newStatus) {
      StatusChangeEffect(s, fullBackRoute, opStart, opEnd, newStatus, options, now);
    }
  }

  /** handleStatusChange: the dropdown of the task with id `taskId` was set
      to `newStatus`; `prompt` is how the feedback prompt is left, when one
      is shown. Only the task found may change. */
  method HandleStatusChange(board: Board, taskId: string, newStatus: string, prompt: PromptAction, now: int)
    returns (outcome: DropdownOutcome)
    modifies if FindTaskIndex(board.tasks, taskId) >= 0 then {board.tasks[FindTaskIndex(board.tasks, taskId)]} else {}
    ensures var i := FindTaskIndex(board.tasks, taskId);
      if i == -1 then outcome == TaskNotFound
      else
        var task := board.tasks[i];
        (outcome, task.State())
          == DropdownChange(old(task.State()), task.backRouteFullRequired, task.opStart, task.opEnd,
                            newStatus, prompt, now)
  {
    var taskIndex := FindTaskIndex(board.tasks, taskId);
    if taskIndex == -1 {
      return TaskNotFound;
    }
    var task := board.tasks[taskIndex];
    var oldStatus := task.status;
    if oldStatus == newStatus {
      return SameStatus;
    }

    if newStatus == "qmow" && oldStatus != "qmow" {
      match prompt {
        case Cancel =>
          outcome := Cancelled;
        case Submit(reasonText) =>
          var feedback := FeedbackOf(reasonText);
          if feedback.None? {
            outcome := AwaitingFeedback;
          } else {
            var ok2 := ApplyStatusChange(task, "qmow", ReturnToQmowOptions(oldStatus, feedback.value), now);
            if !ok2 {
              outcome := Refused;
            } else {
              outcome := Applied(task.status);
            }
          }
      }
      return;
    }

    var ok := ApplyStatusChange(task, newStatus, ManualChangeOptions(oldStatus, newStatus), now);
    if !ok {
      return Refused;
    }
    outcome := Applied(task.status);
  }

  // ---------------------------------------------------------------------------
  // Metadata edit

  /** Whether the save went through, or stopped at an invalid DTG. */
  datatype SaveOutcome = Saved | InvalidDtg

  function HistoryAction(action: string, now: int): HistoryEntry
  {
    map["timestamp" := Instant(now), "action" := Text(action)]
  }

  /** The action text listing the unit and operation changes. */
  function NameChanges(s: TaskState, newUnitName: string, newOpName: string): string
  {
    "Metadata updated:"
      + (if newUnitName != s.unitName then " Unit changed to " + newUnitName + "." else "")
      + (if newOpName != s.operationName then " Operation changed to " + newOpName + "." else "")
  }

  /** The task after the unit and operation names are written, each only
      when it differs. */
  function NamesApplied(s: TaskState, newUnitName: string, newOpName: string): (t: TaskState)
    ensures t == s.(unitName := newUnitName, operationName := newOpName)
  {
    var unitSet := if newUnitName != s.unitName then s.(unitName := newUnitName) else s;
    if newOpName != s.operationName then unitSet.(operationName := newOpName) else unitSet
  }

  /** The save branch of toggleMetadataEdit, as written: the unit and the
      operation are written first, and an invalid new DTG then stops the
      save without undoing them. */
  function MetadataSaveAsWritten(s: TaskState, newUnitName: string, newOpName: string, newDtg: string,
                                 now: int): (r: (SaveOutcome, TaskState))
    ensures r.0 == InvalidDtg <==> ToUpper(newDtg) != s.dtg && ValidateAndConvertDtg(newDtg).None?
    ensures r.1.unitName == newUnitName && r.1.operationName == newOpName
  {
    var named := NamesApplied(s, newUnitName, newOpName);
    var namesChanged := newUnitName != s.unitName || newOpName != s.operationName;
    var dtgChanged := ToUpper(newDtg) != s.dtg;
    var dtgDate := ValidateAndConvertDtg(newDtg);
    if dtgChanged && dtgDate.None? then (InvalidDtg, named)
    else
      var dated := if dtgChanged then named.(dtg := ToUpper(newDtg), dtgDate := dtgDate.value) else named;
      var action := NameChanges(s, newUnitName, newOpName);
      var fullAction := if dtgChanged then action + " DTG changed to " + ToUpper(newDtg) + "." else action;
      if namesChanged || dtgChanged then (Saved, dated.(history := dated.history + [HistoryAction(fullAction, now)]))
      else (Saved, dated)
  }

  /** A save that goes through writes each field given, keeps the DTG and
      its instant when the upper-cased DTG is unchanged, appends one entry
      when something differs and none otherwise, and touches neither the
      status, the group nor the clock. */
  lemma MetadataSaveEffect(s: TaskState, newUnitName: string, newOpName: string, newDtg: string, now: int)
    ensures var (outcome, t) := MetadataSaveAsWritten(s, newUnitName, newOpName, newDtg, now);
      var changed := newUnitName != s.unitName || newOpName != s.operationName || ToUpper(newDtg) != s.dtg;
      && t.unitName == newUnitName && t.operationName == newOpName
      && t.status == s.status && t.group == s.group && t.timeInCurrentStatus == s.timeInCurrentStatus
      && (outcome == InvalidDtg <==> ToUpper(newDtg) != s.dtg && ValidateAndConvertDtg(newDtg).None?)
      && (outcome == Saved ==>
            && t.dtg == (if ToUpper(newDtg) != s.dtg then ToUpper(newDtg) else s.dtg)
            && (ToUpper(newDtg) != s.dtg ==> Some(t.dtgDate) == ValidateAndConvertDtg(newDtg))
            && (ToUpper(newDtg) == s.dtg ==> t.dtgDate == s.dtgDate)
            && (changed ==> t.history == s.history + [t.history[|s.history|]]
                            && t.history[|s.history|]["timestamp"] == Instant(now))
            && (!changed ==> t == s))
  {
  }

  /** The entry a save that goes through appends: the instant and an action
      text listing each change, in the order unit, operation, DTG. */
  lemma MetadataSaveEntry(s: TaskState, newUnitName: string, newOpName: string, newDtg: string, now: int)
    ensures var (outcome, t) := MetadataSaveAsWritten(s, newUnitName, newOpName, newDtg, now);
      outcome == Saved && |t.history| > |s.history| ==>
        t.history[|s.history|] == map[
          "timestamp" := Instant(now),
          "action" := Text("Metadata updated:"
            + (if newUnitName != s.unitName then " Unit changed to " + newUnitName + "." else "")
            + (if newOpName != s.operationName then " Operation changed to " + newOpName + "." else "")
            + (if ToUpper(newDtg) != s.dtg then " DTG changed to " + ToUpper(newDtg) + "." else ""))]
  {
    var action := NameChanges(s, newUnitName, newOpName);
    var upper := ToUpper(newDtg);
    assert action + " DTG changed to " + upper + "." == action + (" DTG changed to " + upper + ".");
    assert action + "" == action;
  }

  /** What the as-written save does on an invalid DTG: the DTG and the
      history are kept, but a new unit or operation name has already been
      written, although the user is told nothing was saved. */
  lemma InvalidDtgPartialSave(s: TaskState, newUnitName: string, newOpName: string, newDtg: string, now: int)
    requires ToUpper(newDtg) != s.dtg && ValidateAndConvertDtg(newDtg).None?
    ensures var (outcome, t) := MetadataSaveAsWritten(s, newUnitName, newOpName, newDtg, now);
      && outcome == InvalidDtg
      && t.dtg == s.dtg && t.dtgDate == s.dtgDate && t.history == s.history
      && t.unitName == newUnitName && t.operationName == newOpName
  {
  }

  /** A concrete instance: a new unit name and an emptied DTG field. The
      save is refused, yet the unit name has changed. */
  lemma PartialSaveExample(s: TaskState, newUnitName: string, now: int)
    requires s.dtg != "" && newUnitName != s.unitName
    ensures var (outcome, t) := MetadataSaveAsWritten(s, newUnitName, s.operationName, "", now);
      outcome == InvalidDtg && t != s && t.unitName == newUnitName
  {
    assert ToUpper("") == "";
    assert DtgFieldsOf("") == None;
  }

  /** The save as evidently intended: the DTG is checked before anything is
      written, so that a refused save writes nothing. */
  function MetadataSaveAtomic(s: TaskState, newUnitName: string, newOpName: string, newDtg: string,
                              now: int): (r: (SaveOutcome, TaskState))
    ensures r.0 == InvalidDtg <==> ToUpper(newDtg) != s.dtg && ValidateAndConvertDtg(newDtg).None?
    ensures r.0 == InvalidDtg ==> r.1 == s
  {
    if ToUpper(newDtg) != s.dtg && ValidateAndConvertDtg(newDtg).None? then (InvalidDtg, s)
    else MetadataSaveAsWritten(s, newUnitName, newOpName, newDtg, now)
  }

  /** The corrected save is all or nothing: refused, the task is as it was;
      accepted, it is what the written code produces. */
  lemma AtomicSaveAllOrNothing(s: TaskState, newUnitName: string, newOpName: string, newDtg: string, now: int)
    ensures var (outcome, t) := MetadataSaveAtomic(s, newUnitName, newOpName, newDtg, now);
      && (outcome == InvalidDtg <==> ToUpper(newDtg) != s.dtg && ValidateAndConvertDtg(newDtg).None?)
      && (outcome == InvalidDtg ==> t == s)
      && (outcome == Saved ==> (outcome, t) == MetadataSaveAsWritten(s, newUnitName, newOpName, newDtg, now)
                               && t.unitName == newUnitName && t.operationName == newOpName)
  {
    MetadataSaveEffect(s, newUnitName, newOpName, newDtg, now);
  }

  /** The unit and operation steps of the save branch: each name is written
      only when it differs, and the history text lists the changes. */
  method ApplyNameEdits(task: Task, newUnitName: string, newOpName: string)
    returns (changesMade: bool, historyAction: string)
    modifies task
    ensures task.State() == NamesApplied(old(task.State()), newUnitName, newOpName)
    ensures historyAction == NameChanges(old(task.State()), newUnitName, newOpName)
    ensures changesMade <==> newUnitName != old(task.unitName) || newOpName != old(task.operationName)
  {
    changesMade := false;
    historyAction := "Metadata updated:";

    if newUnitName != task.unitName {
      task.unitName := newUnitName;
      historyAction := historyAction + " Unit changed to " + newUnitName + ".";
      changesMade := true;
    }

    if newOpName != task.operationName {
      task.operationName := newOpName;
      historyAction := historyAction + " Operation changed to " + newOpName + ".";
      changesMade := true;
    }
  }

  /** The save branch of toggleMetadataEdit: the name steps, then the DTG
      step, then one history entry when anything changed. */
  method SaveMetadataEdit(task: Task, newUnitName: string, newOpName: string, newDtg: string, now: int)
    returns (outcome: SaveOutcome)
    modifies task
    ensures outcome == MetadataSaveAsWritten(old(task.State()), newUnitName, newOpName, newDtg, now).0
    ensures task.State() == MetadataSaveAsWritten(old(task.State()), newUnitName, newOpName, newDtg, now).1
  {
    var changesMade, historyAction := ApplyNameEdits(task, newUnitName, newOpName);
    ghost var named := task.State();

    if ToUpper(newDtg) != task.dtg {
      var dtgDate := ValidateAndConvertDtg(newDtg);
      if dtgDate.None? {
        return InvalidDtg;
      }
      task.dtg := ToUpper(newDtg);
      task.dtgDate := dtgDate.value;
      historyAction := historyAction + " DTG changed to " + ToUpper(newDtg) + ".";
      changesMade := true;
      assert task.State() == named.(dtg := ToUpper(newDtg), dtgDate := dtgDate.value);
    }

    if changesMade {
      task.history := task.history + [HistoryAction(historyAction, now)];
    }
    outcome := Saved;
  }

  // ---------------------------------------------------------------------------
  // Creating a task

  /** A datetime-local field: empty, an instant, or text no date parses from. */
  datatype LocalDateTime = Blank | Parsed(instant: int) | Unparseable

  /** `new Date(v).toISOString()`: the instant, or None where it throws a
      RangeError (an empty or unparseable value). */
  function IsoInstant(v: LocalDateTime): (r: Option<int>)
    ensures r.Some? <==> v.Parsed?
  {
    if v.Parsed? then Some(v.instant) else None
  }

  /** The create-task form as submitted. Each attachment list item holds the
      text of its file-name element, None when it has none. */
  datatype NewTaskForm = NewTaskForm(
    dtg: string, unitName: string, operationName: string, description: string,
    opStart: LocalDateTime, opEnd: LocalDateTime, attachmentItems: seq<Option<string>>)

  datatype CreateOutcome = DtgRejected | DateError | Created(id: string)

  /** The attachment record for a file name of a task with id `taskId`. */
  function AttachmentFor(taskId: string, fileName: string): (a: Attachment)
    ensures a.fileName == fileName && a.filePath == "task-" + taskId + "_" + fileName
    ensures a.fileType == "txt" <==> EndsWith(ToLower(fileName), ".txt")
    ensures a.fileType == "txt" || a.fileType == "doc"
    ensures a.isEditable <==> a.fileType == "txt"
  {
    var fileType := if EndsWith(ToLower(fileName), ".txt") then "txt" else "doc";
    Attachment(fileName, fileType, "task-" + taskId + "_" + fileName, fileType == "txt")
  }

  /** An attachment record of task `taskId` for a non-empty file name with
      no surrounding whitespace. */
  predicate WellNamed(taskId: string, a: Attachment)
  {
    && a == AttachmentFor(taskId, a.fileName)
    && a.fileName != "" && !IsWhitespace(a.fileName[0]) && !IsWhitespace(a.fileName[|a.fileName| - 1])
  }

  /** The records one list item yields: none for a missing or blank name. */
  function ItemAttachments(taskId: string, item: Option<string>): (r: seq<Attachment>)
    ensures |r| <= 1
    ensures |r| == 1 <==> item.Some? && Trim(item.value) != ""
    ensures |r| == 1 ==> r[0] == AttachmentFor(taskId, Trim(item.value))
    ensures forall a :: a in r ==> WellNamed(taskId, a)
  {
    if item.None? then []
    else
      var fileName := Trim(item.value);
      if fileName == "" then [] else [AttachmentFor(taskId, fileName)]
  }

  /** The records the list yields, in list order. */
  function AttachmentsFor(taskId: string, items: seq<Option<string>>): (r: seq<Attachment>)
    ensures |r| <= |items|
    ensures forall a :: a in r ==> WellNamed(taskId, a)
  {
    if items == [] then []
    else AttachmentsFor(taskId, items[..|items| - 1]) + ItemAttachments(taskId, items[|items| - 1])
  }

  /** The list is read in order: the records of `a + b` are those of `a`
      followed by those of `b`. */
  lemma {:induction false} AttachmentsAppend(taskId: string, a: seq<Option<string>>, b: seq<Option<string>>)
    ensures AttachmentsFor(taskId, a + b) == AttachmentsFor(taskId, a) + AttachmentsFor(taskId, b)
  {
    if b == [] {
      assert a + b == a;
    } else {
      var b', last := b[..|b| - 1], b[|b| - 1];
      calc {
        AttachmentsFor(taskId, a + b);
        { assert (a + b)[..|a + b| - 1] == a + b' && (a + b)[|a + b| - 1] == last; }
        AttachmentsFor(taskId, a + b') + ItemAttachments(taskId, last);
        { AttachmentsAppend(taskId, a, b'); }
        AttachmentsFor(taskId, a) + AttachmentsFor(taskId, b') + ItemAttachments(taskId, last);
        AttachmentsFor(taskId, a) + AttachmentsFor(taskId, b);
      }
    }
  }

  /** Every item with a non-blank name yields the record for its trimmed
      name. */
  lemma {:induction false} AttachmentsCover(taskId: string, items: seq<Option<string>>, k: nat)
    requires k < |items| && items[k].Some? && Trim(items[k].value) != ""
    ensures AttachmentFor(taskId, Trim(items[k].value)) in AttachmentsFor(taskId, items)
  {
    var front := items[..|items| - 1];
    if k < |items| - 1 {
      assert front[k] == items[k];
      AttachmentsCover(taskId, front, k);
    } else {
      assert ItemAttachments(taskId, items[k])[0] == AttachmentFor(taskId, Trim(items[k].value));
    }
  }

  /** The attachment loop of handleNewTaskSubmit. */
  method BuildAttachments(taskId: string, items: seq<Option<string>>) returns (attachments: seq<Attachment>)
    ensures attachments == AttachmentsFor(taskId, items)
  {
    attachments := [];
    var i := 0;
    while i < |items|
      invariant 0 <= i <= |items|
      invariant attachments == AttachmentsFor(taskId, items[..i])
    {
      assert items[..i + 1][..i] == items[..i];
      ghost var before := attachments;
      var item := items[i];
      if item.Some? {
        var fileName := Trim(item.value);
        if fileName != "" {
          attachments := attachments + [AttachmentFor(taskId, fileName)];
        }
      }
      assert attachments == before + ItemAttachments(taskId, items[i]);
      i := i + 1;
    }
    assert items[..i] == items;
  }

  /** The writable fields of a new task. */
  function NewTaskState(form: NewTaskForm, dtgDate: int, now: int): TaskState
  {
    TaskState("qmow", "Front-Route", form.unitName, form.operationName, ToUpper(form.dtg), dtgDate, now,
              [map["timestamp" := Instant(now), "action" := Text("Task created by User A.")]])
  }

  /** A new task starts on the front route at qmow, with the DTG as typed in
      upper case, and one history entry stamped with its creation instant,
      which is also when it entered its status. */
  lemma NewTaskShape(form: NewTaskForm, dtgDate: int, now: int)
    ensures var s := NewTaskState(form, dtgDate, now);
      && s.status == "qmow" && s.group == GroupForStatus(s.status) && s.dtg == ToUpper(form.dtg)
      && |s.history| == 1 && s.history[0]["timestamp"] == Instant(s.timeInCurrentStatus)
      && s.timeInCurrentStatus == now
  {
  }

  /** The construction step of handleNewTaskSubmit, once the DTG and the
      operation dates are accepted: the next id, the attachments, the first
      history entry, and the task appended to the board. */
  method CreateTask(board: Board, form: NewTaskForm, dtgDate: int, opStart: Option<int>, opEnd: Option<int>,
                    now: int) returns (newTaskId: string)
    requires board.Valid()
    modifies board
    ensures board.Valid()
    ensures newTaskId == TaskIdFor(old(board.nextTaskIdNumber))
    ensures board.nextTaskIdNumber == old(board.nextTaskIdNumber) + 1
    ensures |board.tasks| == |old(board.tasks)| + 1 && board.tasks[..|old(board.tasks)|] == old(board.tasks)
    ensures var t := board.tasks[|board.tasks| - 1];
      && fresh(t) && t.id == newTaskId && t.description == form.description
      && t.opStart == opStart && t.opEnd == opEnd
      && t.creationTime == Some(now) && t.assigneeId == "user_a" && !t.backRouteFullRequired
      && t.attachments == AttachmentsFor(newTaskId, form.attachmentItems)
      && t.State() == NewTaskState(form, dtgDate, now)
  {
    ghost var tasks0, counter0 := board.tasks, board.nextTaskIdNumber;
    newTaskId := board.GetNextTaskId();
    var attachments := BuildAttachments(newTaskId, form.attachmentItems);

    var newTask := new Task(newTaskId, form.description, opStart, opEnd, Some(now), "user_a", false,
                            attachments, NewTaskState(form, dtgDate, now));
    board.tasks := board.tasks + [newTask];
    ValidAfterCreate(tasks0, counter0, newTask);
  }

  /** handleNewTaskSubmit: an invalid DTG, or an operation start or end that
      is not a date, stops the submission before an id is drawn; otherwise
      the task is created and appended to the board. */
  method HandleNewTaskSubmit(board: Board, form: NewTaskForm, now: int) returns (outcome: CreateOutcome)
    requires board.Valid()
    modifies board
    ensures board.Valid()
    ensures outcome == DtgRejected <==> ValidateAndConvertDtg(form.dtg).None?
    ensures outcome == DateError <==>
      ValidateAndConvertDtg(form.dtg).Some? && (!form.opStart.Parsed? || form.opEnd.Unparseable?)
    ensures !outcome.Created? ==> board.tasks == old(board.tasks) && board.nextTaskIdNumber == old(board.nextTaskIdNumber)
    ensures outcome.Created? ==>
      && outcome.id == TaskIdFor(old(board.nextTaskIdNumber))
      && board.nextTaskIdNumber == old(board.nextTaskIdNumber) + 1
      && |board.tasks| == |old(board.tasks)| + 1 && board.tasks[..|old(board.tasks)|] == old(board.tasks)
      && var t := board.tasks[|board.tasks| - 1];
         && fresh(t) && t.id == outcome.id && t.description == form.description
         && t.opStart == IsoInstant(form.opStart) && t.opEnd == IsoInstant(form.opEnd)
         && t.creationTime == Some(now) && t.assigneeId == "user_a" && !t.backRouteFullRequired
         && t.attachments == AttachmentsFor(outcome.id, form.attachmentItems)
         && t.State() == NewTaskState(form, ValidateAndConvertDtg(form.dtg).value, now)
  {
    var dtgDate := ValidateAndConvertDtg(form.dtg);
    if dtgDate.None? {
      return DtgRejected;
    }
    var opStartIso := IsoInstant(form.opStart);
    if opStartIso.None? {
      return DateError;
    }
    var opEndIso: Option<int> := None;
    if form.opEnd != Blank {
      opEndIso := IsoInstant(form.opEnd);
      if opEndIso.None? {
        return DateError;
      }
    }
    var newTaskId := CreateTask(board, form, dtgDate.value, opStartIso, opEndIso, now);
    outcome := Created(newTaskId);
  }
}
