/**
 * Referential-integrity validation of a normalised bakefile: the optional
 * default task and every dependency of every task must name a task.
 */
module Dependencies {
  import opened Wrappers
  import opened Schema

  /** The dependencies in `deps` that are not in `names`, in their original
      order and with duplicates kept: what the inner loop pushes. */
  function MissingDependencies(deps: seq<string>, names: set<string>): (r: seq<string>)
    ensures forall d :: d in r <==> d in deps && d !in names
  {
    if deps == [] then []
    else
      var last := deps[|deps| - 1];
      assert deps == deps[..|deps| - 1] + [last];
      MissingDependencies(deps[..|deps| - 1], names) + (if last in names then [] else [last])
  }

  /** The missing dependencies of task `t` of `b`. */
  function TaskViolations(b: Bakefile, t: string): seq<string>
    requires t in b.tasks
  {
    MissingDependencies(b.tasks[t].dependencies, b.tasks.Keys)
  }

  /** The violations map: every task with at least one missing dependency,
      mapped to its missing dependencies. */
  function Violations(b: Bakefile): map<string, seq<string>> {
    map t | t in b.tasks && TaskViolations(b, t) != [] :: TaskViolations(b, t)
  }

  /** The default task is absent or names a task. */
  predicate ValidDefault(b: Bakefile) {
    match b.default
    case None => true
    case Some(d) => d in b.tasks
  }

  /** The three failures of the validation, one per diagnostic. */
  datatype DependencyError =
    | InvalidDependencies(violations: map<string, seq<string>>)
    | InvalidDefaultAndDependencies(default: string, violations: map<string, seq<string>>)
    | InvalidDefault(default: string)

  /** The outcome of the validation: the decision made at the end of the scan. */
  function DependencyOutcome(b: Bakefile): Result<(), DependencyError> {
    var violations := Violations(b);
    if violations != map[] then
      if ValidDefault(b) then Err(InvalidDependencies(violations))
      else Err(InvalidDefaultAndDependencies(b.default.value, violations))
    else if !ValidDefault(b) then Err(InvalidDefault(b.default.value))
    else Ok(())
  }

  /** The scan: every task's dependencies are checked against the task names,
      and each missing one is pushed onto its task's entry of the accumulator,
      which is created on the first violation. The tasks are visited in an
      unspecified order; the outcome does not depend on it. */
  method CheckDependencies(b: Bakefile) returns (r: Result<(), DependencyError>)
    ensures r == DependencyOutcome(b)
  {
    var validDefault := match b.default case None => true case Some(d) => d in b.tasks;
    var violations: map<string, seq<string>> := map[];
    var pending := b.tasks.Keys;
    while pending != {}
      invariant pending <= b.tasks.Keys
      invariant forall t :: t in violations <==> t in b.tasks && t !in pending && TaskViolations(b, t) != []
      invariant forall t :: t in violations ==> violations[t] == TaskViolations(b, t)
      decreases pending
    {
      var task :| task in pending;
      var deps := b.tasks[task].dependencies;
      for i := 0 to |deps|
        invariant forall t :: t != task ==>
          (t in violations <==> t in b.tasks && t !in pending && TaskViolations(b, t) != [])
        invariant forall t :: t != task && t in violations ==> violations[t] == TaskViolations(b, t)
        invariant task in violations <==> MissingDependencies(deps[..i], b.tasks.Keys) != []
        invariant task in violations ==> violations[task] == MissingDependencies(deps[..i], b.tasks.Keys)
      {
        assert deps[..i + 1][..i] == deps[..i];
        if deps[i] !in b.tasks {
          var prior := if task in violations then violations[task] else [];
          violations := violations[task := prior + [deps[i]]];
        }
      }
      assert deps[..|deps|] == deps;
      pending := pending - {task};
    }
    assert violations == Violations(b);
    if violations != map[] {
      if validDefault {
        r := Err(InvalidDependencies(violations));
      } else {
        r := Err(InvalidDefaultAndDependencies(b.default.value, violations));
      }
    } else if !validDefault {
      r := Err(InvalidDefault(b.default.value));
    } else {
      r := Ok(());
    }
  }

  /** The dependency lists of `b` all name tasks of `b`. */
  predicate DependenciesExist(b: Bakefile) {
    forall t, d :: t in b.tasks && d in b.tasks[t].dependencies ==> d in b.tasks
  }

  /** Duplicates are kept: a missing name occurs as often as in `deps`, a
      present one not at all. */
  lemma {:induction false} MissingDependenciesCount(deps: seq<string>, names: set<string>, d: string)
    ensures multiset(MissingDependencies(deps, names))[d] == if d in names then 0 else multiset(deps)[d]
  {
    if deps != [] {
      var init := deps[..|deps| - 1];
      assert deps == init + [deps[|deps| - 1]];
      MissingDependenciesCount(init, names, d);
    }
  }

  /** Order is kept: filtering a concatenation filters each part in turn. */
  lemma {:induction false} MissingDependenciesAppend(a: seq<string>, c: seq<string>, names: set<string>)
    ensures MissingDependencies(a + c, names) == MissingDependencies(a, names) + MissingDependencies(c, names)
  {
    if c != [] {
      var c' := c[..|c| - 1];
      assert (a + c)[..|a + c| - 1] == a + c';
      MissingDependenciesAppend(a, c', names);
    } else {
      assert a + c == a;
    }
  }

  /** A task has an entry in the violations map exactly when one of its
      dependencies is not a task, and the entry is that task's dependency list
      with the existing tasks filtered out. */
  lemma ViolationsCharacterised(b: Bakefile, t: string)
    ensures t in Violations(b) <==> t in b.tasks && exists d :: d in b.tasks[t].dependencies && d !in b.tasks
    ensures t in Violations(b) ==> Violations(b)[t] == MissingDependencies(b.tasks[t].dependencies, b.tasks.Keys)
  {
    if t in b.tasks {
      var missing := TaskViolations(b, t);
      if missing != [] {
        assert missing[0] in missing;
      }
    }
  }

  /** The violations map is empty exactly when every dependency names a task. */
  lemma NoViolationsIff(b: Bakefile)
    ensures Violations(b) == map[] <==> DependenciesExist(b)
  {
    if Violations(b) == map[] {
      forall t, d | t in b.tasks && d in b.tasks[t].dependencies
        ensures d in b.tasks
      {
        ViolationsCharacterised(b, t);
      }
    } else {
      var t :| t in Violations(b);
      ViolationsCharacterised(b, t);
    }
  }

  /** The validation succeeds exactly when the default task, if given,
      exists and every dependency of every task exists. */
  lemma OkIff(b: Bakefile)
    ensures DependencyOutcome(b).Ok? <==> ValidDefault(b) && DependenciesExist(b)
  {
    NoViolationsIff(b);
  }

  /** Every missing dependency is reported under its task, whether or not the
      default task is also invalid. */
  lemma ErrorNamesMissingDependency(b: Bakefile, t: string, d: string)
    requires t in b.tasks && d in b.tasks[t].dependencies && d !in b.tasks
    ensures DependencyOutcome(b).Err?
    ensures !DependencyOutcome(b).error.InvalidDefault?
    ensures t in DependencyOutcome(b).error.violations
    ensures d in DependencyOutcome(b).error.violations[t]
  {
    ViolationsCharacterised(b, t);
  }

  /** An invalid default task is reported by name: alone when there are no
      dependency violations, in one combined error when there are. */
  lemma ErrorNamesInvalidDefault(b: Bakefile)
    requires b.default.Some? && b.default.value !in b.tasks
    ensures DependencyOutcome(b).Err?
    ensures !DependencyOutcome(b).error.InvalidDependencies?
    ensures DependencyOutcome(b).error.default == b.default.value
    ensures DependencyOutcome(b).error.InvalidDefault? <==> DependenciesExist(b)
  {
    NoViolationsIff(b);
  }

  /** With a valid default, only the dependency violations are reported. */
  lemma ValidDefaultNotReported(b: Bakefile)
    requires ValidDefault(b)
    ensures DependencyOutcome(b).Err? ==> DependencyOutcome(b).error.InvalidDependencies?
    ensures DependencyOutcome(b).Err? <==> !DependenciesExist(b)
  {
    NoViolationsIff(b);
  }
}
