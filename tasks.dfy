/**
 * The task service: tasks are created in the PENDING status for the user the
 * message names, and listed per user.
 */
module Tasks {
  import opened Ids

  const TASK_CREATED := "Task created successfully"

  /**
   * The task status enum. Its declaration is not part of this model; only the
   * PENDING member is used by the code, the others are kept by name.
   */
  datatype TaskStatus = Pending | Other(name: string)

  /** A stored task document. */
  datatype Task = Task(id: TaskId, title: string, description: string, status: TaskStatus, userId: UserId)

  /** The `create-task` message (`ICreateTask`). */
  datatype CreateTaskMsg = CreateTaskMsg(title: string, description: string, userId: UserId)

  datatype TaskCreated = TaskCreated(message: string, task: Task)

  /** `taskModel.find({ userId })`: the user's tasks, in collection order. */
  function GetList(tasks: seq<Task>, userId: UserId): (r: seq<Task>)
    ensures forall t :: t in r <==> t in tasks && t.userId == userId
    ensures |r| <= |tasks|
  {
    if tasks == [] then []
    else
      var rest := GetList(tasks[1..], userId);
      assert forall t :: t in tasks <==> t == tasks[0] || t in tasks[1..];
      if tasks[0].userId == userId then [tasks[0]] + rest else rest
  }

  /** Appending a task extends its owner's list by that task and no other list. */
  lemma {:induction false} GetListAppend(tasks: seq<Task>, task: Task, userId: UserId)
    ensures GetList(tasks + [task], userId) ==
            GetList(tasks, userId) + (if task.userId == userId then [task] else [])
  {
    if tasks != [] {
      assert (tasks + [task])[1..] == tasks[1..] + [task];
      GetListAppend(tasks[1..], task, userId);
    }
  }

  /** A user's list holds each of the user's tasks as often as the collection does, and nothing else. */
  lemma {:induction false} GetListKeepsMultiplicity(tasks: seq<Task>, userId: UserId)
    ensures multiset(GetList(tasks, userId)) <= multiset(tasks)
    ensures forall t :: t in tasks && t.userId == userId ==> multiset(GetList(tasks, userId))[t] == multiset(tasks)[t]
  {
    if tasks != [] {
      GetListKeepsMultiplicity(tasks[1..], userId);
      assert tasks == [tasks[0]] + tasks[1..];
    }
  }

  /** The task service and its `tasks` collection. */
  class TaskService {
    var tasks: seq<Task>
    var nextId: TaskId

    ghost predicate Valid()
      reads this
    {
      forall i :: 0 <= i < |tasks| ==> tasks[i].id < nextId
    }

    constructor ()
      ensures Valid() && tasks == [] && nextId == 0
    {
      tasks := [];
      nextId := 0;
    }

    /** `create`: insert the message's fields with status PENDING under a fresh id. */
    method Create(msg: CreateTaskMsg) returns (r: TaskCreated)
      requires Valid()
      modifies this
      ensures Valid()
      ensures r.message == TASK_CREATED
      ensures r.task == Task(old(nextId), msg.title, msg.description, Pending, msg.userId)
      ensures tasks == old(tasks) + [r.task]
      ensures forall i :: 0 <= i < |old(tasks)| ==> old(tasks)[i].id != r.task.id
    {
      var task := Task(nextId, msg.title, msg.description, Pending, msg.userId);
      tasks := tasks + [task];
      nextId := nextId + 1;
      r := TaskCreated(TASK_CREATED, task);
    }
  }
}
