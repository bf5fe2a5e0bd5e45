/**
 * The text of the validation diagnostics. The shape of each message and the
 * backtick quoting follow `check_dependencies`; the list joiner of the
 * `format` module is not part of this model and `Series` stands in for it
 * with a ", " join. What is proved is that the text names every missing
 * dependency and the invalid default, which holds for any joiner that
 * includes each item verbatim.
 */
module Messages {
  import opened Wrappers
  import opened Schema
  import opened Dependencies

  /** `sub` occurs in `s` starting at index `i`. */
  predicate OccursAt(sub: string, s: string, i: int) {
    0 <= i <= |s| - |sub| && s[i..i + |sub|] == sub
  }

  /** `sub` occurs as a contiguous part of `s`. */
  predicate Occurs(sub: string, s: string) {
    exists i :: 0 <= i <= |s| && OccursAt(sub, s, i)
  }

  function Quote(name: string): string {
    "`" + name + "`"
  }

  /** The items joined with ", ". */
  function Series(items: seq<string>): string {
    if |items| == 0 then ""
    else if |items| == 1 then items[0]
    else Series(items[..|items| - 1]) + ", " + items[|items| - 1]
  }

  /** Every name quoted. */
  function QuoteAll(names: seq<string>): (r: seq<string>)
    ensures |r| == |names|
    ensures forall k :: 0 <= k < |names| ==> r[k] == Quote(names[k])
  {
    if names == [] then [] else [Quote(names[0])] + QuoteAll(names[1..])
  }

  /** One task with its missing dependencies: "`test` (`do_thing`)". */
  function TaskEntry(task: string, missing: seq<string>): (r: string)
    ensures |r| > |Quote(task)| && r[..|Quote(task)|] == Quote(task)
    ensures r[|r| - 1] == ')'
  {
    Quote(task) + " (" + Series(QuoteAll(missing)) + ")"
  }

  /** The entries of the violations map, in the iteration order `order`. */
  function Entries(violations: map<string, seq<string>>, order: seq<string>): (r: seq<string>)
    requires forall k :: 0 <= k < |order| ==> order[k] in violations
    ensures |r| == |order|
    ensures forall k :: 0 <= k < |order| ==> r[k] == TaskEntry(order[k], violations[order[k]])
  {
    if order == [] then []
    else [TaskEntry(order[0], violations[order[0]])] + Entries(violations, order[1..])
  }

  /** The diagnostic of a failed validation; `order` is the order in which
      the violations map is iterated. */
  function Message(e: DependencyError, order: seq<string>): (r: string)
    requires e.InvalidDefault? || forall k :: 0 <= k < |order| ==> order[k] in e.violations
    ensures |r| > 0 && r[|r| - 1] == '.'
  {
    match e
    case InvalidDependencies(violations) =>
      "The following tasks have invalid dependencies: " + Series(Entries(violations, order)) + "."
    case InvalidDefaultAndDependencies(default, violations) =>
      "The default task " + Quote(default)
      + " does not exist, and the following tasks have invalid dependencies: "
      + Series(Entries(violations, order)) + "."
    case InvalidDefault(default) =>
      "The default task " + Quote(default) + " does not exist."
  }

  lemma OccursSelf(s: string)
    ensures Occurs(s, s)
  {
    assert OccursAt(s, s, 0);
  }

  lemma OccursInLeft(sub: string, a: string, c: string)
    requires Occurs(sub, a)
    ensures Occurs(sub, a + c)
  {
    var i :| 0 <= i <= |a| && OccursAt(sub, a, i);
    assert (a + c)[i..i + |sub|] == a[i..i + |sub|];
    assert OccursAt(sub, a + c, i);
  }

  lemma OccursInRight(sub: string, a: string, c: string)
    requires Occurs(sub, c)
    ensures Occurs(sub, a + c)
  {
    var i :| 0 <= i <= |c| && OccursAt(sub, c, i);
    assert (a + c)[|a| + i..|a| + i + |sub|] == c[i..i + |sub|];
    assert OccursAt(sub, a + c, |a| + i);
  }

  lemma OccursTransitive(sub: string, mid: string, s: string)
    requires Occurs(sub, mid) && Occurs(mid, s)
    ensures Occurs(sub, s)
  {
    var i :| 0 <= i <= |mid| && OccursAt(sub, mid, i);
    var j :| 0 <= j <= |s| && OccursAt(mid, s, j);
    assert forall k :: 0 <= k < |sub| ==> s[j + i + k] == mid[i + k] == sub[k];
    assert s[j + i..j + i + |sub|] == sub;
    assert OccursAt(sub, s, j + i);
  }

  /** Every item of a series appears in it verbatim. */
  lemma {:induction false} OccursInSeries(items: seq<string>, k: nat)
    requires k < |items|
    ensures Occurs(items[k], Series(items))
  {
    if |items| == 1 {
      OccursSelf(items[0]);
    } else if k == |items| - 1 {
      OccursSelf(items[k]);
      OccursInRight(items[k], Series(items[..|items| - 1]) + ", ", items[k]);
    } else {
      var init := items[..|items| - 1];
      assert init[k] == items[k];
      OccursInSeries(init, k);
      OccursInLeft(items[k], Series(init), ", ");
      OccursInLeft(items[k], Series(init) + ", ", items[|items| - 1]);
    }
  }

  /** A task's entry names each of its missing dependencies, quoted. */
  lemma EntryNamesDependency(task: string, missing: seq<string>, d: string)
    requires d in missing
    ensures Occurs(Quote(d), TaskEntry(task, missing))
  {
    var k :| 0 <= k < |missing| && missing[k] == d;
    var quoted := QuoteAll(missing);
    OccursInSeries(quoted, k);
    OccursInRight(Quote(d), Quote(task) + " (", Series(quoted));
    OccursInLeft(Quote(d), Quote(task) + " (" + Series(quoted), ")");
  }

  /** The series of entries names every missing dependency of every task
      that `order` visits. */
  lemma SeriesNamesDependency(violations: map<string, seq<string>>, order: seq<string>, t: string, d: string)
    requires forall k :: 0 <= k < |order| ==> order[k] in violations
    requires t in order && d in violations[t]
    ensures Occurs(Quote(d), Series(Entries(violations, order)))
  {
    var k :| 0 <= k < |order| && order[k] == t;
    var entries := Entries(violations, order);
    EntryNamesDependency(t, violations[t], d);
    OccursInSeries(entries, k);
    OccursTransitive(Quote(d), entries[k], Series(entries));
  }

  /** A diagnostic about dependencies names every missing dependency. */
  lemma MessageNamesDependency(e: DependencyError, order: seq<string>, t: string, d: string)
    requires !e.InvalidDefault?
    requires forall k :: 0 <= k < |order| ==> order[k] in e.violations
    requires t in order && d in e.violations[t]
    ensures Occurs(Quote(d), Message(e, order))
  {
    var series := Series(Entries(e.violations, order));
    SeriesNamesDependency(e.violations, order, t, d);
    if e.InvalidDependencies? {
      OccursInRight(Quote(d), "The following tasks have invalid dependencies: ", series);
      OccursInLeft(Quote(d), "The following tasks have invalid dependencies: " + series, ".");
    } else {
      var head := "The default task " + Quote(e.default)
        + " does not exist, and the following tasks have invalid dependencies: ";
      OccursInRight(Quote(d), head, series);
      OccursInLeft(Quote(d), head + series, ".");
    }
  }

  /** A diagnostic about the default task names it. */
  lemma MessageNamesDefault(e: DependencyError, order: seq<string>)
    requires !e.InvalidDependencies?
    requires e.InvalidDefault? || forall k :: 0 <= k < |order| ==> order[k] in e.violations
    ensures Occurs(Quote(e.default), Message(e, order))
  {
    var q := Quote(e.default);
    var head := "The default task " + q;
    OccursSelf(q);
    OccursInRight(q, "The default task ", q);
    if e.InvalidDefault? {
      OccursInLeft(q, head, " does not exist.");
    } else {
      var middle := head + " does not exist, and the following tasks have invalid dependencies: ";
      var series := Series(Entries(e.violations, order));
      OccursInLeft(q, head, " does not exist, and the following tasks have invalid dependencies: ");
      OccursInLeft(q, middle, series);
      OccursInLeft(q, middle + series, ".");
    }
  }

  /** A name occurs in the text wherever its quoted form does. */
  lemma QuotedOccurs(name: string, s: string)
    requires Occurs(Quote(name), s)
    ensures Occurs(name, s)
  {
    OccursSelf(name);
    OccursInRight(name, "`", name);
    OccursInLeft(name, "`" + name, "`");
    OccursTransitive(name, Quote(name), s);
  }

  /** Whatever the iteration order of the violations map (each key once),
      the diagnostic of a bakefile names each dependency that is not a task. */
  lemma ValidationMessageNamesDependency(b: Bakefile, order: seq<string>, t: string, d: string)
    requires t in b.tasks && d in b.tasks[t].dependencies && d !in b.tasks
    requires forall k :: k in order <==> k in Violations(b)
    requires Distinct(order)
    ensures DependencyOutcome(b).Err?
    ensures Occurs(d, Message(DependencyOutcome(b).error, order))
  {
    ErrorNamesMissingDependency(b, t, d);
    var e := DependencyOutcome(b).error;
    MessageNamesDependency(e, order, t, d);
    QuotedOccurs(d, Message(e, order));
  }

  /** Whatever the iteration order of the violations map (each key once),
      the diagnostic of a bakefile with an invalid default task names that task. */
  lemma ValidationMessageNamesDefault(b: Bakefile, order: seq<string>)
    requires b.default.Some? && b.default.value !in b.tasks
    requires forall k :: k in order <==> k in Violations(b)
    requires Distinct(order)
    ensures DependencyOutcome(b).Err?
    ensures Occurs(b.default.value, Message(DependencyOutcome(b).error, order))
  {
    ErrorNamesInvalidDefault(b);
    var e := DependencyOutcome(b).error;
    MessageNamesDefault(e, order);
    QuotedOccurs(b.default.value, Message(e, order));
  }
}
