/**
 * The gateway's task controller: the owner of every task message is the user
 * the guard attached to the request, never anything the client sent.
 */
module GatewayTasks {
  import opened Wrappers
  import opened Ids
  import opened Exceptions
  import opened ServiceExceptionFilter
  import opened ExceptionHandling
  import TaskStore = Tasks
  import Guard

  /** A create-task request body: the two DTO fields, and any others the client adds, `userId` included. */
  datatype CreateTaskBody = CreateTaskBody(title: string, description: string, userId: Option<UserId>, extra: map<string, string>)

  /** `CreateTaskDto`: its exposed fields. */
  datatype CreateTaskDto = CreateTaskDto(title: string, description: string)

  /** `plainToClass(CreateTaskDto, body, { excludeExtraneousValues: true })` */
  function ToCreateTaskDto(body: CreateTaskBody): (dto: CreateTaskDto)
    ensures dto.title == body.title && dto.description == body.description
  {
    CreateTaskDto(body.title, body.description)
  }

  /** `{ ...createTaskDto, userId }`: the authenticated id is spread last. */
  function TaskMessage(dto: CreateTaskDto, userId: UserId): (msg: TaskStore.CreateTaskMsg)
    ensures msg.userId == userId
    ensures msg.title == dto.title && msg.description == dto.description
  {
    TaskStore.CreateTaskMsg(dto.title, dto.description, userId)
  }

  /** Whatever `userId` or extra fields the body carries, the message is the same. */
  lemma ClientCannotChooseOwner(a: CreateTaskBody, b: CreateTaskBody, userId: UserId)
    requires a.title == b.title && a.description == b.description
    ensures TaskMessage(ToCreateTaskDto(a), userId) == TaskMessage(ToCreateTaskDto(b), userId)
  {
  }

  class TaskController {
    const taskService: TaskStore.TaskService

    constructor (taskService: TaskStore.TaskService)
      ensures this.taskService == taskService
    {
      this.taskService := taskService;
    }

    /**
     * `create`: a task owned by the attached user, with the body's title and
     * description, in the PENDING status.
     */
    method Create(body: CreateTaskBody, request: Guard.Request) returns (r: Reply<TaskStore.TaskCreated>)
      requires taskService.Valid()
      modifies taskService
      ensures taskService.Valid()
      ensures request.user.None? ==>
                r == Thrown(Crash(Guard.NO_USER)) && taskService.tasks == old(taskService.tasks)
      ensures request.user.Some? ==>
                var task := TaskStore.Task(old(taskService.nextId), body.title, body.description,
                                           TaskStore.Pending, request.user.value.id);
                && r == Returned(TaskStore.TaskCreated(TaskStore.TASK_CREATED, task))
                && taskService.tasks == old(taskService.tasks) + [task]
    {
      if request.user.None? {
        r := Thrown(HandleException(Crash(Guard.NO_USER)));
        return;
      }
      var userId := request.user.value.id;
      var dto := ToCreateTaskDto(body);
      var created := taskService.Create(TaskMessage(dto, userId));
      var reply := Respond(Done(created));
      r := Returned(TaskStore.TaskCreated(TaskStore.TASK_CREATED, reply.payload.task));
    }

    /** `tasks`: the attached user's tasks, and nobody else's. */
    method Tasks(request: Guard.Request) returns (r: Reply<seq<TaskStore.Task>>)
      ensures request.user.None? ==> r == Thrown(Crash(Guard.NO_USER))
      ensures request.user.Some? ==> r == Returned(TaskStore.GetList(taskService.tasks, request.user.value.id))
      ensures request.user.Some? ==> forall t :: t in r.value <==> t in taskService.tasks && t.userId == request.user.value.id
    {
      if request.user.None? {
        r := Thrown(HandleException(Crash(Guard.NO_USER)));
        return;
      }
      var userId := request.user.value.id;
      var listed := Respond(Done(TaskStore.GetList(taskService.tasks, userId)));
      r := Returned(listed.payload);
    }
  }
}
