/**
 * The data model of a bakefile (the task-definition document of the toast
 * task runner) after YAML decoding: the raw form, in which every task is
 * either a bare command string or a full record, and the canonical form.
 */
module Schema {
  import opened Wrappers

  /** The default location for commands and paths. */
  const DefaultLocation: string := "/scratch"

  /** The default user for commands and paths. */
  const DefaultUser: string := "root"

  /** A canonical task. `env` maps a variable name to its fallback value;
      `None` marks a variable that the host environment must supply. */
  datatype Task = Task(
    dependencies: seq<string>,
    cache: bool,
    env: map<string, Option<string>>,
    paths: seq<string>,
    location: string,
    user: string,
    command: Option<string>)

  /** A task as written: a bare command (`build: cargo build`) or a record. */
  datatype RawTask = Short(command: string) | Long(task: Task)

  /** The document as decoded, before normalisation. */
  datatype RawBakefile = RawBakefile(
    image: string,
    default: Option<string>,
    tasks: map<string, RawTask>)

  /** The document after every raw task has been turned into a `Task`. */
  datatype Bakefile = Bakefile(
    image: string,
    default: Option<string>,
    tasks: map<string, Task>)

  /** The value of `cache` when a record leaves it out. */
  function DefaultTaskCache(): bool { true }

  /** The value of `location` when a record leaves it out. */
  function DefaultTaskLocation(): string { DefaultLocation }

  /** The value of `user` when a record leaves it out. */
  function DefaultTaskUser(): string { DefaultUser }

  /** The task a record with no fields (`build: {}`) decodes to: every field
      at its declared default; `command` is absent. */
  function EmptyRecord(): (t: Task)
    ensures t.dependencies == [] && t.env == map[] && t.paths == []
    ensures t.cache && t.location == "/scratch" && t.user == "root"
    ensures t.command == None
  {
    Task([], DefaultTaskCache(), map[], [], DefaultTaskLocation(), DefaultTaskUser(), None)
  }
}
