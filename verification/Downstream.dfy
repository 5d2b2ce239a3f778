/**
 The downstream closure of a rerun (internal/dispatch/rerun_handler.go, DownstreamTasks):
 a breadth-first walk of the reversed DependsOn edges.
 */
module Downstream {
  import opened PipelineTypes

  ghost predicate Path(tasks: seq<TaskSpec>, p: seq<string>) {
    forall i {:trigger p[i]} | 0 <= i < |p| - 1 :: Edge(tasks, p[i], p[i + 1])
  }

  ghost predicate PathBetween(tasks: seq<TaskSpec>, p: seq<string>, start: string, name: string) {
    |p| >= 2 && p[0] == start && p[|p| - 1] == name && Path(tasks, p)
  }

  /** name depends on start, directly or through other tasks. */
  ghost predicate Reachable(tasks: seq<TaskSpec>, start: string, name: string) {
    exists p :: PathBetween(tasks, p, start, name)
  }

  predicate NoDuplicates<T(==)>(s: seq<T>) {
    forall i, j | 0 <= i < j < |s| :: s[i] != s[j]
  }

  /** Each name has a parent that is the start or comes earlier. */
  ghost predicate ParentFirst(tasks: seq<TaskSpec>, start: string, order: seq<string>) {
    forall i | 0 <= i < |order| :: HasParent(tasks, start, order[..i], order[i])
  }

  ghost predicate HasParent(tasks: seq<TaskSpec>, start: string, earlier: seq<string>, name: string) {
    exists p :: (p == start || p in earlier) && Edge(tasks, p, name)
  }

  ghost predicate ClosedUnderEdges(tasks: seq<TaskSpec>, start: string, order: seq<string>) {
    forall p, n :: (p == start || p in order) && Edge(tasks, p, n) ==> n in order
  }

  /** The orders a rerun may delete in: what the walk returns. */
  ghost predicate DownstreamOrder(tasks: seq<TaskSpec>, start: string, order: seq<string>) {
    NoDuplicates(order) && ParentFirst(tasks, start, order) && ClosedUnderEdges(tasks, start, order)
  }

  lemma {:induction false} OrderIsReachable(tasks: seq<TaskSpec>, start: string, order: seq<string>, i: nat)
    requires ParentFirst(tasks, start, order) && i < |order|
    ensures Reachable(tasks, start, order[i])
  {
    assert HasParent(tasks, start, order[..i], order[i]);
    var p :| (p == start || p in order[..i]) && Edge(tasks, p, order[i]);
    if p == start {
      assert PathBetween(tasks, [start, order[i]], start, order[i]);
    } else {
      var j :| 0 <= j < i && order[j] == p;
      OrderIsReachable(tasks, start, order, j);
      var path :| PathBetween(tasks, path, start, p);
      var longer := path + [order[i]];
      forall k | 0 <= k < |longer| - 1 ensures Edge(tasks, longer[k], longer[k + 1]) {
        if k < |path| - 1 {
          assert longer[k] == path[k];
        }
      }
      assert PathBetween(tasks, longer, start, order[i]);
    }
  }

  lemma {:induction false} ReachableIsInOrder(
      tasks: seq<TaskSpec>, start: string, order: seq<string>, p: seq<string>, i: nat)
    requires ClosedUnderEdges(tasks, start, order) && Path(tasks, p)
    requires 1 <= i < |p| && p[0] == start
    ensures p[i] in order
  {
    assert Edge(tasks, p[i - 1], p[i]);
    if i > 1 {
      ReachableIsInOrder(tasks, start, order, p, i - 1);
    }
  }

  /** Such an order lists exactly the tasks that depend on the start. */
  lemma DownstreamIsReachable(tasks: seq<TaskSpec>, start: string, order: seq<string>, name: string)
    requires DownstreamOrder(tasks, start, order)
    ensures name in order <==> Reachable(tasks, start, name)
  {
    if name in order {
      var i :| 0 <= i < |order| && order[i] == name;
      OrderIsReachable(tasks, start, order, i);
    }
    if Reachable(tasks, start, name) {
      var p :| PathBetween(tasks, p, start, name);
      ReachableIsInOrder(tasks, start, order, p, |p| - 1);
    }
  }

  /** dependents[dep] lists the tasks that have dep in their DependsOn. */
  ghost predicate IsDependentsOf(dependents: map<string, seq<string>>, tasks: seq<TaskSpec>) {
    forall d, n :: Listed(dependents, d, n) <==> Edge(tasks, d, n)
  }

  predicate Listed(dependents: map<string, seq<string>>, dep: string, name: string) {
    dep in dependents && name in dependents[dep]
  }

  /** The same while task i is being entered: its first j dependencies are in. */
  ghost predicate IsPartialDependentsOf(dependents: map<string, seq<string>>, tasks: seq<TaskSpec>, i: nat, j: nat)
    requires i < |tasks| && j <= |tasks[i].dependsOn|
  {
    forall d, n :: Listed(dependents, d, n)
      <==> (Edge(tasks[..i], d, n) || (n == tasks[i].name && d in tasks[i].dependsOn[..j]))
  }

  lemma DependentsOfOneMore(dependents: map<string, seq<string>>, tasks: seq<TaskSpec>, i: nat)
    requires i < |tasks| && IsPartialDependentsOf(dependents, tasks, i, |tasks[i].dependsOn|)
    ensures IsDependentsOf(dependents, tasks[..i + 1])
  {
    var deps := tasks[i].dependsOn;
    assert deps[..|deps|] == deps;
    forall d, n ensures Listed(dependents, d, n) <==> Edge(tasks[..i + 1], d, n) {
      EdgeOfOneMore(tasks, i, d, n);
    }
  }

  method Dependents(tasks: seq<TaskSpec>) returns (dependents: map<string, seq<string>>)
    ensures IsDependentsOf(dependents, tasks)
  {
    dependents := map[];
    for i := 0 to |tasks|
      invariant IsDependentsOf(dependents, tasks[..i])
    {
      var t := tasks[i];
      for j := 0 to |t.dependsOn|
        invariant IsPartialDependentsOf(dependents, tasks, i, j)
      {
        var dep := t.dependsOn[j];
        var listed := if dep in dependents then dependents[dep] else [];
        assert t.dependsOn[..j + 1] == t.dependsOn[..j] + [dep];
        dependents := dependents[dep := listed + [t.name]];
      }
      DependentsOfOneMore(dependents, tasks, i);
    }
    assert tasks[..|tasks|] == tasks;
  }

  lemma EdgeOfOneMore(tasks: seq<TaskSpec>, i: nat, d: string, n: string)
    requires i < |tasks|
    ensures Edge(tasks[..i + 1], d, n)
      <==> Edge(tasks[..i], d, n) || (n == tasks[i].name && d in tasks[i].dependsOn)
  {
    assert tasks[..i + 1] == tasks[..i] + [tasks[i]];
    if Edge(tasks[..i], d, n) {
      var t :| t in tasks[..i] && t.name == n && d in t.dependsOn;
      assert t in tasks[..i + 1];
    }
    if n == tasks[i].name && d in tasks[i].dependsOn {
      assert tasks[i] in tasks[..i + 1];
    }
  }

  lemma EdgeTargetIsDeclared(tasks: seq<TaskSpec>, d: string, n: string)
    requires Edge(tasks, d, n)
    ensures n in Names(tasks)
  {
  }

  lemma ParentFirstSnoc(tasks: seq<TaskSpec>, start: string, order: seq<string>, p: string, name: string)
    requires ParentFirst(tasks, start, order) && (p == start || p in order) && Edge(tasks, p, name)
    ensures ParentFirst(tasks, start, order + [name])
  {
    var longer := order + [name];
    forall i | 0 <= i < |longer| ensures HasParent(tasks, start, longer[..i], longer[i]) {
      assert longer[..i] == order[..i];
      if i < |order| {
        assert HasParent(tasks, start, order[..i], order[i]);
      } else {
        assert order[..i] == order;
      }
    }
  }

  /** The k-th name the walk dequeues: the start, then the names found. */
  function Visit(start: string, out: seq<string>, k: nat): string
    requires k <= |out|
  {
    if k == 0 then start else out[k - 1]
  }

  /** The dependents of the first `closed` visited names have all been found. */
  ghost predicate ClosedUpTo(tasks: seq<TaskSpec>, start: string, out: seq<string>, closed: nat)
    requires closed <= |out| + 1
  {
    forall k, n :: 0 <= k < closed && Edge(tasks, Visit(start, out, k), n) ==> n in out
  }

  /** What has been found: no repetition, declared names only, each after a parent. */
  ghost predicate Found(tasks: seq<TaskSpec>, start: string, seen: set<string>, out: seq<string>) {
    && (forall n :: n in seen <==> n in out) && seen <= Names(tasks)
    && NoDuplicates(out) && ParentFirst(tasks, start, out)
  }

  /** The queue is what remains to be visited. */
  predicate Queued(start: string, out: seq<string>, queue: seq<string>, walked: nat) {
    walked <= |out| + 1 && queue == if walked == 0 then [start] + out else out[walked - 1..]
  }

  /** While the dependents of the visited name are being looked at. */
  ghost predicate Visiting(
      tasks: seq<TaskSpec>, start: string, seen: set<string>, out: seq<string>, queue: seq<string>,
      walked: nat, cur: string)
  {
    && Queued(start, out, queue, walked + 1) && Visit(start, out, walked) == cur
    && Found(tasks, start, seen, out) && ClosedUpTo(tasks, start, out, walked)
  }

  lemma VisitOneMore(
      tasks: seq<TaskSpec>, start: string, seen: set<string>, out: seq<string>, queue: seq<string>,
      walked: nat, cur: string, d: string)
    requires Visiting(tasks, start, seen, out, queue, walked, cur)
    requires d !in seen && Edge(tasks, cur, d)
    ensures Visiting(tasks, start, seen + {d}, out + [d], queue + [d], walked, cur)
  {
    ParentFirstSnoc(tasks, start, out, cur, d);
    EdgeTargetIsDeclared(tasks, cur, d);
    forall k, n | 0 <= k < walked && Edge(tasks, Visit(start, out + [d], k), n) ensures n in out + [d] {
      assert Visit(start, out + [d], k) == Visit(start, out, k);
    }
  }

  predicate AllSeen(names: seq<string>, seen: set<string>) {
    forall n | n in names :: n in seen
  }

  lemma AllSeenOneMore(names: seq<string>, j: nat, before: set<string>, seen: set<string>)
    requires j < |names| && AllSeen(names[..j], before) && before <= seen && names[j] in seen
    ensures AllSeen(names[..j + 1], seen)
  {
    assert names[..j + 1] == names[..j] + [names[j]];
  }

  /** Between two visits: what is queued, what has been found, and whose dependents are all in. */
  ghost predicate Walking(
      tasks: seq<TaskSpec>, start: string, seen: set<string>, out: seq<string>, queue: seq<string>, walked: nat)
  {
    Queued(start, out, queue, walked) && Found(tasks, start, seen, out) && ClosedUpTo(tasks, start, out, walked)
  }

  lemma WalkStarts(tasks: seq<TaskSpec>, start: string)
    ensures Walking(tasks, start, {}, [], [start], 0)
  {
  }

  lemma VisitStarts(
      tasks: seq<TaskSpec>, start: string, seen: set<string>, out: seq<string>, queue: seq<string>, walked: nat)
    requires Walking(tasks, start, seen, out, queue, walked) && queue != []
    ensures Visiting(tasks, start, seen, out, queue[1..], walked, queue[0])
  {
  }

  lemma VisitEnds(
      dependents: map<string, seq<string>>, tasks: seq<TaskSpec>, start: string, seen: set<string>,
      out: seq<string>, queue: seq<string>, walked: nat, cur: string)
    requires IsDependentsOf(dependents, tasks)
    requires Visiting(tasks, start, seen, out, queue, walked, cur)
    requires cur in dependents ==> AllSeen(dependents[cur], seen)
    ensures Walking(tasks, start, seen, out, queue, walked + 1)
  {
    forall n | Edge(tasks, cur, n) ensures n in out {
      assert Listed(dependents, cur, n);
    }
  }

  lemma WalkEnds(tasks: seq<TaskSpec>, start: string, seen: set<string>, out: seq<string>, walked: nat)
    requires Walking(tasks, start, seen, out, [], walked)
    ensures DownstreamOrder(tasks, start, out)
  {
    forall p, n | (p == start || p in out) && Edge(tasks, p, n) ensures n in out {
      if p == start {
        assert Visit(start, out, 0) == p;
      } else {
        var k :| 0 <= k < |out| && out[k] == p;
        assert Visit(start, out, k + 1) == p;
      }
    }
  }

  lemma FoundAreDeclared(
      tasks: seq<TaskSpec>, start: string, seen: set<string>, out: seq<string>, queue: seq<string>, walked: nat)
    requires Walking(tasks, start, seen, out, queue, walked)
    ensures seen <= Names(tasks)
  {
  }

  lemma DependentsAreEdges(dependents: map<string, seq<string>>, tasks: seq<TaskSpec>, cur: string)
    requires IsDependentsOf(dependents, tasks) && cur in dependents
    ensures forall d | d in dependents[cur] :: Edge(tasks, cur, d)
  {
    assert forall d | d in dependents[cur] :: Listed(dependents, cur, d);
  }

  lemma AllDownstreamAreReachable(tasks: seq<TaskSpec>, start: string, order: seq<string>)
    requires DownstreamOrder(tasks, start, order)
    ensures forall name :: name in order <==> Reachable(tasks, start, name)
  {
    forall name ensures name in order <==> Reachable(tasks, start, name) {
      DownstreamIsReachable(tasks, start, order, name);
    }
  }

  /** The inner loop: every dependent of cur not seen before is recorded and queued. */
  method Enqueue(
      ghost tasks: seq<TaskSpec>, ghost start: string, ghost walked: nat, cur: string, next: seq<string>,
      seen0: set<string>, out0: seq<string>, queue0: seq<string>)
    returns (seen: set<string>, out: seq<string>, queue: seq<string>)
    requires Visiting(tasks, start, seen0, out0, queue0, walked, cur)
    requires forall d | d in next :: Edge(tasks, cur, d)
    ensures Visiting(tasks, start, seen, out, queue, walked, cur)
    ensures AllSeen(next, seen)
    ensures seen0 <= seen && (seen == seen0 ==> queue == queue0)
  {
    hide Visiting;
    seen, out, queue := seen0, out0, queue0;
    for j := 0 to |next|
      invariant Visiting(tasks, start, seen, out, queue, walked, cur)
      invariant AllSeen(next[..j], seen)
      invariant seen0 <= seen && (seen == seen0 ==> queue == queue0)
    {
      var d := next[j];
      ghost var before := seen;
      if d !in seen {
        VisitOneMore(tasks, start, seen, out, queue, walked, cur, d);
        seen, out, queue := seen + {d}, out + [d], queue + [d];
      }
      AllSeenOneMore(next, j, before, seen);
    }
    assert next[..|next|] == next;
  }

  /** The walk; it terminates on every graph, cycles included. */
  method DownstreamTasks(tasks: seq<TaskSpec>, taskName: string) returns (out: seq<string>)
    ensures DownstreamOrder(tasks, taskName, out)
    ensures forall name :: name in out <==> Reachable(tasks, taskName, name)
  {
    hide *;
    var dependents := Dependents(tasks);
    var seen: set<string> := {};
    out := [];
    var queue := [taskName];
    ghost var walked: nat := 0;
    WalkStarts(tasks, taskName);
    while queue != []
      invariant Walking(tasks, taskName, seen, out, queue, walked)
      decreases Names(tasks) - seen, |queue|
    {
      ghost var known := seen;
      VisitStarts(tasks, taskName, seen, out, queue, walked);
      var cur := queue[0];
      queue := queue[1..];
      var next := if cur in dependents then dependents[cur] else [];
      if cur in dependents {
        DependentsAreEdges(dependents, tasks, cur);
      }
      seen, out, queue := Enqueue(tasks, taskName, walked, cur, next, seen, out, queue);
      VisitEnds(dependents, tasks, taskName, seen, out, queue, walked, cur);
      walked := walked + 1;
      FoundAreDeclared(tasks, taskName, seen, out, queue, walked);
      assert known <= seen <= Names(tasks);
    }
    WalkEnds(tasks, taskName, seen, out, walked);
    AllDownstreamAreReachable(tasks, taskName, out);
  }
}
