/** The entities of the meeting vault (types.ts) and the two wrapper
    datatypes the rest of the model uses for absent values and failures. */
module Types {

  /** An optional value: a TypeScript `field?: T` or a `T | undefined` result. */
  datatype Option<+T> = None | Some(value: T) {
    predicate IsFailure() {
      None?
    }

    function PropagateFailure<U>(): Option<U>
      requires None?
    {
      None
    }

    function Extract(): T
      requires Some?
    {
      value
    }
  }

  /** A value or the error a JavaScript call would have thrown. */
  datatype Result<+T, +E> = Ok(value: T) | Err(error: E)

  /** One action item of a meeting. `completed` is optional: absent reads as
      not completed. */
  datatype Task = Task(
    task: string,
    assignee: Option<string>,
    priority: string,
    completed: Option<bool>)

  /** A stored meeting: the analysed summary plus its identity and metadata. */
  datatype Record = Record(
    id: string,
    timestamp: int,
    title: string,
    source: Option<string>,
    transcript: string,
    summary: string,
    keyTakeaways: seq<string>,
    actionPlan: seq<Task>,
    sentimentScore: int,
    professionalGrade: string)

  /** Application settings; the only field the code keeps is the webhook URL. */
  datatype Settings = Settings(teamsWebhookUrl: Option<string>)

  /** What `{}` parses to: settings with no field set. */
  const EmptySettings := Settings(None)

  /** JavaScript truthiness of `task.completed`: only a stored `true` counts. */
  predicate IsDone(t: Task) {
    t.completed == Some(true)
  }

  /** `task.assignee || ''`: an absent assignee reads as the empty string. */
  function AssigneeText(t: Task): (r: string)
    ensures t.assignee.None? ==> r == ""
    ensures t.assignee.Some? ==> r == t.assignee.value
  {
    match t.assignee
    case None => ""
    case Some(a) => a
  }
}
