/** The conventional Some/None datatype, standing in for TypeScript's `T | null`. */
module Wrappers {

  datatype Option<+T> = None | Some(value: T) {

    predicate IsFailure() { None? }

    function PropagateFailure<U>(): Option<U>
      requires None?
    {
      None
    }

    function Extract(): T
      requires Some?
    {
      value
    }

    /** The wrapped value, or `default` when there is none. */
    function GetOr(default: T): T {
      match this
      case Some(v) => v
      case None => default
    }
  }
}

/** The records the dataset store keeps: messages, training examples and datasets. */
module Types {

  import opened Wrappers

  /** The closed set of conversation roles. */
  datatype Role = System | User | Assistant

  /** The name a role carries in every exported format. */
  function RoleName(role: Role): (name: string)
    ensures |name| > 0
  {
    match role
    case System => "system"
    case User => "user"
    case Assistant => "assistant"
  }

  /** The inverse of RoleName. */
  function RoleFromName(name: string): (r: Option<Role>)
    ensures forall role :: r == Some(role) <==> RoleName(role) == name
  {
    if name == "system" then Some(System)
    else if name == "user" then Some(User)
    else if name == "assistant" then Some(Assistant)
    else None
  }

  /** One conversational turn. */
  datatype Message = Message(id: string, role: Role, content: string)

  /** One fine-tuning sample; `score` is a JavaScript number, modelled as an integer. */
  datatype TrainingExample = TrainingExample(
    id: string,
    messages: seq<Message>,
    tags: seq<string>,
    score: int,
    createdAt: string,
    updatedAt: string)

  /** A named collection of training examples. */
  datatype Dataset = Dataset(
    id: string,
    name: string,
    description: string,
    examples: seq<TrainingExample>,
    createdAt: string,
    updatedAt: string)

  /**
   * `Partial<TrainingExample>`: each field is either absent (None) or a
   * replacement value.
   */
  datatype ExampleUpdate = ExampleUpdate(
    id: Option<string>,
    messages: Option<seq<Message>>,
    tags: Option<seq<string>>,
    score: Option<int>,
    createdAt: Option<string>,
    updatedAt: Option<string>)
}
