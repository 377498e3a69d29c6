/** The task store: a task record, whose status, group, metadata and history
    the workflow updates in place, and the board, which holds the global task
    list and the counter task ids are drawn from. */
module Data {
  import opened Common
  import opened Utils

  /** The front-route statuses (js/data.js), used by the priority rules and
      the group mapping. */
  const FRONT_ROUTE_STATUSES: seq<string> := ["qmow", "swo", "anav", "reo"]

  /** A field value of a history entry: an instant (a timestamp, in ms since
      the epoch) or a text. */
  datatype Value = Instant(ms: int) | Text(s: string)

  /** A history entry is an object of named fields; `timestamp` and `action`
      are always set, `type` and any metadata keys may be added. */
  type HistoryEntry = map<string, Value>

  datatype Attachment = Attachment(fileName: string, fileType: string, filePath: string, isEditable: bool)

  /** The fields of a task the workflow writes. */
  datatype TaskState = TaskState(
    status: string,
    group: string,
    unitName: string,
    operationName: string,
    dtg: string,
    dtgDate: int,
    timeInCurrentStatus: int,
    history: seq<HistoryEntry>)

  /** A task record. The fields no operation writes are constants; the
      operation window and the creation time are the instants the ISO
      strings name, None for an empty, missing or unparseable string. */
  class Task {
    const id: string
    const description: string
    const opStart: Option<int>
    const opEnd: Option<int>
    const creationTime: Option<int>
    const assigneeId: string
    const backRouteFullRequired: bool
    const attachments: seq<Attachment>

    var status: string
    var group: string
    var unitName: string
    var operationName: string
    var dtg: string
    var dtgDate: int
    var timeInCurrentStatus: int
    var history: seq<HistoryEntry>

    /** The writable fields, as one value. */
    function State(): (s: TaskState)
      reads this
      ensures s.status == status && s.group == group && s.history == history
    {
      TaskState(status, group, unitName, operationName, dtg, dtgDate, timeInCurrentStatus, history)
    }

    constructor(id: string, description: string, opStart: Option<int>, opEnd: Option<int>,
                creationTime: Option<int>, assigneeId: string, backRouteFullRequired: bool,
                attachments: seq<Attachment>, s: TaskState)
      ensures this.id == id && this.description == description
      ensures this.opStart == opStart && this.opEnd == opEnd && this.creationTime == creationTime
      ensures this.assigneeId == assigneeId && this.backRouteFullRequired == backRouteFullRequired
      ensures this.attachments == attachments
      ensures State() == s
    {
      this.id := id;
      this.description := description;
      this.opStart := opStart;
      this.opEnd := opEnd;
      this.creationTime := creationTime;
      this.assigneeId := assigneeId;
      this.backRouteFullRequired := backRouteFullRequired;
      this.attachments := attachments;
      status := s.status;
      group := s.group;
      unitName := s.unitName;
      operationName := s.operationName;
      dtg := s.dtg;
      dtgDate := s.dtgDate;
      timeInCurrentStatus := s.timeInCurrentStatus;
      history := s.history;
    }
  }

  /** The index of the first task with the given id, or -1 (`findIndex`). */
  function FindTaskIndex(tasks: seq<Task>, id: string): (i: int)
    ensures -1 <= i < |tasks|
    ensures i >= 0 ==> tasks[i].id == id
    ensures forall j :: 0 <= j < |tasks| && (i == -1 || j < i) ==> tasks[j].id != id
  {
    if tasks == [] then -1
    else if tasks[0].id == id then 0
    else
      var k := FindTaskIndex(tasks[1..], id);
      if k == -1 then -1 else k + 1
  }

  /** The global task list and the id counter. */
  class Board {
    var tasks: seq<Task>
    var nextTaskIdNumber: nat

    /** Every id on the board was issued from the counter, before its
        current value, and no two tasks share an id. */
    ghost predicate Valid()
      reads this
    {
      ValidTasks(tasks, nextTaskIdNumber)
    }

    /** The counter starts at 5: MI-001 to MI-004 are the seed tasks. */
    constructor()
      ensures tasks == [] && nextTaskIdNumber == 5
      ensures Valid()
    {
      tasks := [];
      nextTaskIdNumber := 5;
    }

    /** getNextTaskId: the id for the current counter value; the counter
        moves on by one. */
    method GetNextTaskId() returns (id: string)
      modifies this
      ensures id == TaskIdFor(old(nextTaskIdNumber))
      ensures nextTaskIdNumber == old(nextTaskIdNumber) + 1 && tasks == old(tasks)
      ensures old(Valid()) ==> Valid()
    {
      id := TaskIdFor(nextTaskIdNumber);
      nextTaskIdNumber := nextTaskIdNumber + 1;
    }
  }

  /** The ids of `tasks` were all drawn from a counter now at `counter`,
      and are pairwise different. */
  ghost predicate ValidTasks(tasks: seq<Task>, counter: nat)
  {
    && (forall i :: 0 <= i < |tasks| ==>
          ParseTaskId(tasks[i].id).Some? && ParseTaskId(tasks[i].id).value < counter)
    && (forall i, j :: 0 <= i < j < |tasks| ==> tasks[i].id != tasks[j].id)
  }

  /** Two tasks on a valid board with different positions are different objects. */
  lemma ValidTasksDistinct(b: Board, i: int, j: int)
    requires b.Valid() && 0 <= i < |b.tasks| && 0 <= j < |b.tasks| && i != j
    ensures b.tasks[i] != b.tasks[j]
  {
    if i < j {
      assert b.tasks[i].id != b.tasks[j].id;
    } else {
      assert b.tasks[j].id != b.tasks[i].id;
    }
  }

  /** Appending a task with the id drawn from the counter, and moving the
      counter on, keeps the ids valid: the new id repeats none on the board. */
  lemma ValidAfterCreate(tasks: seq<Task>, counter: nat, t: Task)
    requires ValidTasks(tasks, counter) && t.id == TaskIdFor(counter)
    ensures ValidTasks(tasks + [t], counter + 1)
  {
    TaskIdRoundTrip(counter);
    var all := tasks + [t];
    forall i | 0 <= i < |tasks|
      ensures all[i].id != t.id
    {
      assert all[i] == tasks[i];
      assert ParseTaskId(tasks[i].id).value < counter;
    }
  }
}
