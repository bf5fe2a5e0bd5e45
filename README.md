# Bakefile front-end of the toast task runner, modelled in Dafny

toast runs tasks in containers. A *bakefile* names an image, an optional
default task and a map of tasks. Each task is written either as a bare
command string or as a full record. This project models the core of
`src/bakefile.rs`, which does three things:

- **Normalisation.** Every raw task becomes a canonical `Task`. A bare
  command gets the defaults: no dependencies, `cache` true, no environment,
  no paths, location `/scratch`, user `root`. A record is kept verbatim.
- **Dependency validation** (`check_dependencies`). The default task, if
  given, and every dependency of every task must name a task. All
  violations are collected into one map (task → its missing dependencies)
  before the single diagnostic is built.
- **Environment resolution** (`environment`). For each declared variable,
  a live value wins; otherwise the fallback is used; a variable with
  neither is a violation, and all violations are returned together.

Modules:

- `Wrappers`: `Option`, `Result`, `Distinct`.
- `Schema`: the data model, the two default constants and the field
  defaults.
- `Dependencies`: the validation scan as a method, proved equal to the
  specification function `DependencyOutcome`, plus lemmas about that
  function.
- `Messages`: the text of the three diagnostics, and proofs that the text
  names every missing dependency and the invalid default.
- `Environment`: the resolution loop as a method. The process environment
  is a `map<string, string>` parameter.
- `Parse`: normalisation and `ParseBakefile`, which normalises and then validates.
- `Scenarios`: the bakefiles of the unit tests, with their outcomes.

`HashMap` iteration order is unspecified. The two loops over maps take the
next key with a nondeterministic choice (`:|`), so every contract holds for
every visiting order. In particular, `CheckDependencies` yields the same
structured outcome for every order. The message text lists tasks in
iteration order, so `Message` takes that order as a parameter.

Errors of the validation are a structured value, `DependencyError`, with
one variant per diagnostic of the source: dependency violations only,
invalid default together with dependency violations, and invalid default
only.

## Model

| member | source | states |
|---|---|---|
| `Schema.EmptyRecord` | src/bakefile.rs:14-54 | a record with no fields has no dependencies, env or paths, `cache` true, location `/scratch`, user `root`, and no command |
| `Parse.Normalize` | src/bakefile.rs:78-102 | normalisation keeps `image`, `default` and exactly the key set of `tasks`, and normalises each task on its own |
| `Parse.NormalizeTask` | src/bakefile.rs:87-98 | a bare command `s` normalises to the field-less record with `command = Some(s)`, all other fields at their defaults; a full record passes through unchanged |
| `Parse.NormalizeRecords` | src/bakefile.rs:78-101 | a bakefile written with every task as a record normalises back to itself |
| `Parse.ParseBakefile` | src/bakefile.rs:75-105 | parsing succeeds iff the default is absent or a task and every dependency is a task; on success it returns the normalised bakefile; on failure it returns exactly the validation error |
| `Dependencies.MissingDependencies` | src/bakefile.rs:146-152 | one task's missing dependencies are exactly its dependencies that are not task names |
| `Dependencies.MissingDependenciesCount` | src/bakefile.rs:146-152 | duplicates are kept: each missing name occurs as often as among the dependencies, and a task name not at all |
| `Dependencies.MissingDependenciesAppend` | src/bakefile.rs:146-152 | order is kept: the missing dependencies of a concatenation are those of the first part followed by those of the second |
| `Dependencies.CheckDependencies` | src/bakefile.rs:133-197 | the nested scan, with its accumulator creating an entry on a task's first violation, yields `DependencyOutcome` whatever order the tasks are visited in |
| `Dependencies.ViolationsCharacterised` | src/bakefile.rs:141-154 | a task has an entry in the violations map iff one of its dependencies is not a task; the entry is its dependency list filtered to non-tasks |
| `Dependencies.NoViolationsIff` | src/bakefile.rs:141-157 | the violations map is empty iff every dependency of every task is a task |
| `Dependencies.OkIff` | src/bakefile.rs:133-197 | validation succeeds iff the default is absent or a task, and every dependency of every task is a task |
| `Dependencies.ErrorNamesMissingDependency` | src/bakefile.rs:157-187 | every dependency that is not a task makes validation fail with a dependency error listing it under its task, with or without an invalid default |
| `Dependencies.ErrorNamesInvalidDefault` | src/bakefile.rs:176-192 | an invalid default makes validation fail with an error carrying that name; the error is the default-only one iff all dependencies exist, and otherwise the combined one |
| `Dependencies.ValidDefaultNotReported` | src/bakefile.rs:176-180 | with a valid default, validation fails iff some dependency is missing, and then with the dependencies-only error |
| `Messages.TaskEntry` | src/bakefile.rs:161-171 | one task's entry: the task name in backticks, then its quoted missing dependencies joined inside parentheses |
| `Messages.Message` | src/bakefile.rs:157-192 | the text of the three diagnostics, with task entries joined by the `Series` stand-in; each is one sentence ending in a period |
| `Messages.OccursInSeries` | src/bakefile.rs:158-174 | every item of a joined series appears in it verbatim |
| `Messages.EntryNamesDependency` | src/bakefile.rs:161-171 | a task's entry in the diagnostic names each of its missing dependencies in backticks |
| `Messages.SeriesNamesDependency` | src/bakefile.rs:158-174 | the series of entries names every missing dependency of every task visited |
| `Messages.MessageNamesDependency` | src/bakefile.rs:176-186 | both dependency diagnostics name every missing dependency in backticks |
| `Messages.MessageNamesDefault` | src/bakefile.rs:182-192 | both default diagnostics name the default task in backticks |
| `Messages.ValidationMessageNamesDependency` | src/bakefile.rs:157-187 | for any iteration order, the diagnostic of a bakefile names each dependency that is not a task |
| `Messages.ValidationMessageNamesDefault` | src/bakefile.rs:176-192 | for any iteration order, the diagnostic of a bakefile with an invalid default names that default |
| `Environment.ResolveEnvironment` | src/bakefile.rs:108-130 | succeeds iff every declared variable has a live value or a fallback; on success the keys are exactly the declared ones, a live value wins over a fallback, and an unset variable takes its fallback; on failure the list holds exactly the unresolvable names, each once |
| `Scenarios.ShorthandTaskScenario` | src/bakefile.rs:225-254 | `build: cargo build` normalises to the task running `cargo build` with all defaults, and that bakefile validates |
| `Scenarios.ExistingDependencyScenario` | src/bakefile.rs:507-542 | `test` depending on an existing `build` is accepted |
| `Scenarios.NonexistentDependencyScenario` | src/bakefile.rs:545-581 | `test` depending on a missing `do_thing` is rejected, with `do_thing` recorded under `test` and named in the text |
| `Scenarios.InvalidDefaultScenario` | src/bakefile.rs:322-334 | a default `test` with only `build` defined is rejected with the default-only error, and the text names `test` |

## Left out

- YAML decoding (`serde_yaml::from_str`) is not modelled: the model starts
  from the decoded `RawBakefile`. So are the closed schema
  (`deny_unknown_fields`), the choice between the two raw task forms
  (`untagged`) and the decoder's error text.
- The list joiner `format::series` is not part of this model. `Series`
  joins with ", " in its place. The containment lemmas use only the fact
  that each item appears verbatim.
- The order of tasks in the diagnostic and in the environment violation
  list comes from `HashMap` iteration and is unspecified. The model leaves
  it open (nondeterministic choice, or the `order` parameter of `Message`).
- The process environment is a map parameter instead of `env::var`. A
  variable set to a value that is not valid Unicode makes `env::var` fail;
  the model has no such values, and treats such a variable as unset.
- The Serialize, Debug and Clone derives are not modelled.
- Non-empty task names: the code does not check them, so the model does
  not either.
