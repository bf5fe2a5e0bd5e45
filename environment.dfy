/**
 * Resolution of a task's environment variables against the host
 * environment, which is passed in as a map from name to value.
 */
module Environment {
  import opened Wrappers
  import opened Schema

  /** `name` is declared by `env` without a fallback and `live` lacks it. */
  predicate Unresolvable(env: map<string, Option<string>>, live: map<string, string>, name: string) {
    name in env && env[name].None? && name !in live
  }

  /** Each declared variable takes its live value if there is one, else its
      fallback; a variable with neither is a violation. The variables are
      visited in an unspecified order and every one of them is visited, so
      all violations are reported together. */
  method ResolveEnvironment(task: Task, live: map<string, string>)
    returns (r: Result<map<string, string>, seq<string>>)
    ensures r.Ok? <==> forall name :: name in task.env ==> !Unresolvable(task.env, live, name)
    ensures r.Ok? ==> r.value.Keys == task.env.Keys
    ensures r.Ok? ==> forall name :: name in task.env && name in live ==> r.value[name] == live[name]
    ensures r.Ok? ==> forall name :: name in task.env && name !in live ==>
      task.env[name].Some? && r.value[name] == task.env[name].value
    ensures r.Err? ==> forall name :: name in r.error <==> Unresolvable(task.env, live, name)
    ensures r.Err? ==> Distinct(r.error)
  {
    var violations: seq<string> := [];
    var result: map<string, string> := map[];
    var pending := task.env.Keys;
    while pending != {}
      invariant pending <= task.env.Keys
      invariant forall name :: name in result <==>
        name in task.env && name !in pending && !Unresolvable(task.env, live, name)
      invariant forall name :: name in result ==>
        result[name] == if name in live then live[name] else task.env[name].value
      invariant forall name :: name in violations <==>
        name !in pending && Unresolvable(task.env, live, name)
      invariant Distinct(violations)
      decreases pending
    {
      var arg :| arg in pending;
      match task.env[arg] {
        case Some(default) =>
          result := result[arg := if arg in live then live[arg] else default];
        case None =>
          if arg in live {
            result := result[arg := live[arg]];
          } else {
            violations := violations + [arg];
          }
      }
      pending := pending - {arg};
    }
    if violations != [] {
      assert violations[0] in violations;
      return Err(violations);
    }
    r := Ok(result);
  }
}
