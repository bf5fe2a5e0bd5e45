/**
 * Concrete bakefiles from the unit tests of the bakefile module, with the
 * outcome the model gives them.
 */
module Scenarios {
  import opened Wrappers
  import opened Schema
  import opened Dependencies
  import opened Messages
  import opened Parse

  function TaskWithDependencies(deps: seq<string>): (t: Task)
    ensures t.dependencies == deps
  {
    EmptyRecord().(dependencies := deps)
  }

  /** `build: cargo build` normalises to the task running `cargo build`,
      and that bakefile validates. */
  lemma ShorthandTaskScenario()
    ensures Normalize(RawBakefile("ubuntu:18.04", None, map["build" := Short("cargo build")]))
      == Bakefile("ubuntu:18.04", None,
           map["build" := Task([], true, map[], [], "/scratch", "root", Some("cargo build"))])
    ensures DependencyOutcome(Normalize(RawBakefile("ubuntu:18.04", None, map["build" := Short("cargo build")])))
      == Ok(())
  {
    var b := Normalize(RawBakefile("ubuntu:18.04", None, map["build" := Short("cargo build")]));
    OkIff(b);
  }

  /** `test` depending on an existing `build` is accepted. */
  lemma ExistingDependencyScenario()
    ensures DependencyOutcome(Bakefile("ubuntu:18.04", None,
      map["build" := EmptyRecord(), "test" := TaskWithDependencies(["build"])])) == Ok(())
  {
  }

  /** `test` depending on `build` and the missing `do_thing` is rejected,
      the violation is recorded under `test`, and the text names `do_thing`. */
  lemma NonexistentDependencyScenario()
    ensures
      var b := Bakefile("ubuntu:18.04", None,
        map["build" := EmptyRecord(), "test" := TaskWithDependencies(["build", "do_thing"])]);
      && DependencyOutcome(b).Err?
      && DependencyOutcome(b).error.InvalidDependencies?
      && DependencyOutcome(b).error.violations["test"] == ["do_thing"]
      && Occurs("do_thing", Message(DependencyOutcome(b).error, ["test"]))
  {
    var b := Bakefile("ubuntu:18.04", None,
      map["build" := EmptyRecord(), "test" := TaskWithDependencies(["build", "do_thing"])]);
    assert ["build", "do_thing"][..1] == ["build"] && ["build"][..0] == [];
    assert "build" in b.tasks.Keys && "do_thing" !in b.tasks.Keys;
    assert MissingDependencies(["build"], b.tasks.Keys) == [];
    assert MissingDependencies(["build", "do_thing"], b.tasks.Keys) == ["do_thing"];
    assert TaskViolations(b, "build") == [];
    assert Violations(b) == map["test" := ["do_thing"]];
    ValidationMessageNamesDependency(b, ["test"], "test", "do_thing");
  }

  /** A default `test` with only `build` defined is rejected, and the text
      names `test`. */
  lemma InvalidDefaultScenario()
    ensures
      var b := Normalize(RawBakefile("ubuntu:18.04", Some("test"), map["build" := Long(EmptyRecord())]));
      && DependencyOutcome(b) == Err(InvalidDefault("test"))
      && Occurs("test", Message(DependencyOutcome(b).error, []))
  {
    var b := Normalize(RawBakefile("ubuntu:18.04", Some("test"), map["build" := Long(EmptyRecord())]));
    assert b.tasks == map["build" := EmptyRecord()];
    NoViolationsIff(b);
    ValidationMessageNamesDefault(b, []);
  }
}
