/**
 * Parsing of an already decoded bakefile: normalisation of every raw task,
 * then validation of the dependencies.
 */
module Parse {
  import opened Wrappers
  import opened Schema
  import opened Dependencies

  /** A bare command becomes a task that runs it with every other field at
      its default, the same task as the record that gives only that command;
      a record is kept as it is. */
  function NormalizeTask(raw: RawTask): (t: Task)
    ensures raw.Short? ==> t == EmptyRecord().(command := Some(raw.command))
    ensures raw.Long? ==> t == raw.task
  {
    match raw
    case Short(command) =>
      Task([], true, map[], [], DefaultLocation, DefaultUser, Some(command))
    case Long(task) => task
  }

  /** The bakefile with every raw task normalised. */
  function Normalize(raw: RawBakefile): (b: Bakefile)
    ensures b.image == raw.image && b.default == raw.default
    ensures b.tasks.Keys == raw.tasks.Keys
    ensures forall name :: name in raw.tasks ==> b.tasks[name] == NormalizeTask(raw.tasks[name])
  {
    Bakefile(raw.image, raw.default, map name | name in raw.tasks :: NormalizeTask(raw.tasks[name]))
  }

  /** Writing every task of a bakefile as a record and normalising gives the
      bakefile back. */
  lemma NormalizeRecords(b: Bakefile)
    ensures Normalize(RawBakefile(b.image, b.default, map name | name in b.tasks :: Long(b.tasks[name]))) == b
  {
  }

  /** Normalise the raw bakefile and validate it; the result is the
      normalised bakefile exactly when the default task and every dependency
      exist. */
  method ParseBakefile(raw: RawBakefile) returns (r: Result<Bakefile, DependencyError>)
    ensures r.Ok? <==> ValidDefault(Normalize(raw)) && DependenciesExist(Normalize(raw))
    ensures r.Ok? ==> r.value == Normalize(raw)
    ensures r.Err? ==> DependencyOutcome(Normalize(raw)) == Err(r.error)
  {
    var bakefile := Normalize(raw);
    var checked := CheckDependencies(bakefile);
    OkIff(bakefile);
    match checked {
      case Err(e) => r := Err(e);
      case Ok(_) => r := Ok(bakefile);
    }
  }
}
