/** A pipeline is schedulable exactly when its dependencies are declared and nothing waits for itself. */
module Acyclicity {
  import opened PipelineTypes
  import opened PipelineSystem
  import opened PipelineSafety
  import opened CreationOrder
  import opened PipelineProgress

  ghost predicate Waits(tasks: seq<TaskSpec>, d: string, n: string) {
    Prerequisite(tasks, true, d, n)
  }

  ghost predicate Declared(tasks: seq<TaskSpec>) {
    forall d, n :: Waits(tasks, d, n) ==> d in Names(tasks)
  }

  /** Each name of the chain waits for the one before it. */
  ghost predicate Chain(tasks: seq<TaskSpec>, c: seq<string>) {
    forall i {:trigger c[i]} | 0 <= i < |c| - 1 :: Waits(tasks, c[i], c[i + 1])
  }

  ghost predicate Cycle(tasks: seq<TaskSpec>, c: seq<string>) {
    |c| >= 2 && Chain(tasks, c) && c[0] == c[|c| - 1]
  }

  ghost predicate Acyclic(tasks: seq<TaskSpec>) {
    !exists c :: Cycle(tasks, c)
  }

  lemma WaiterIsDeclared(tasks: seq<TaskSpec>, d: string, n: string)
    requires Waits(tasks, d, n)
    ensures n in Names(tasks)
  {
    if !Edge(tasks, d, n) {
      assert SerialBefore(tasks, d, n);
    }
  }

  // --- A topological order leaves no room for a cycle ---

  ghost function Position(order: seq<string>, n: string): (i: nat)
    requires n in order
    ensures i < |order| && order[i] == n
  {
    var i :| 0 <= i < |order| && order[i] == n;
    i
  }

  lemma PositionsRise(tasks: seq<TaskSpec>, order: seq<string>, d: string, n: string)
    requires TopologicalOrder(tasks, order) && Waits(tasks, d, n)
    ensures d in order && n in order && Position(order, d) < Position(order, n)
  {
    WaiterIsDeclared(tasks, d, n);
    var i := Position(order, n);
    assert d in order[..i];
    var j :| 0 <= j < i && order[j] == d;
    assert Position(order, d) == j;
  }

  lemma {:induction false} ChainRises(tasks: seq<TaskSpec>, order: seq<string>, c: seq<string>, k: nat)
    requires TopologicalOrder(tasks, order) && Chain(tasks, c) && 0 < k < |c|
    ensures c[0] in order && c[k] in order && Position(order, c[0]) < Position(order, c[k])
  {
    assert Waits(tasks, c[k - 1], c[k - 1 + 1]);
    PositionsRise(tasks, order, c[k - 1], c[k]);
    if k > 1 {
      ChainRises(tasks, order, c, k - 1);
    }
  }

  // --- Without cycles some task is always next ---

  ghost predicate EachWaits(tasks: seq<TaskSpec>, rest: set<string>) {
    forall n | n in rest :: exists d :: d in rest && Waits(tasks, d, n)
  }

  lemma ChainCons(tasks: seq<TaskSpec>, d: string, c: seq<string>)
    requires c != [] && Chain(tasks, c) && Waits(tasks, d, c[0])
    ensures Chain(tasks, [d] + c)
  {
    hide Waits;
    var longer := [d] + c;
    forall i | 0 <= i < |longer| - 1 ensures Waits(tasks, longer[i], longer[i + 1]) {
      assert longer[i + 1] == c[i];
      if i > 0 {
        assert longer[i] == c[i - 1];
        assert Waits(tasks, c[i - 1], c[i - 1 + 1]);
      }
    }
  }

  lemma SubchainIsCycle(tasks: seq<TaskSpec>, c: seq<string>, i: nat, j: nat)
    requires Chain(tasks, c) && i < j < |c| && c[i] == c[j]
    ensures Cycle(tasks, c[i..j + 1])
  {
    hide Waits;
    var cycle := c[i..j + 1];
    forall k | 0 <= k < |cycle| - 1 ensures Waits(tasks, cycle[k], cycle[k + 1]) {
      assert cycle[k] == c[i + k] && cycle[k + 1] == c[i + k + 1];
    }
  }

  lemma WaitedFor(tasks: seq<TaskSpec>, rest: set<string>, n: string) returns (d: string)
    requires EachWaits(tasks, rest) && n in rest
    ensures d in rest && Waits(tasks, d, n)
  {
    hide Waits;
    d :| d in rest && Waits(tasks, d, n);
  }

  lemma SingletonChain(tasks: seq<TaskSpec>, n: string)
    ensures Chain(tasks, [n])
  {
  }

  /** When everything in rest waits for something in rest there are chains of any length. */
  lemma {:induction false} LongChain(tasks: seq<TaskSpec>, rest: set<string>, k: nat) returns (c: seq<string>)
    requires rest != {} && EachWaits(tasks, rest)
    ensures |c| == k + 1 && Chain(tasks, c) && forall i | 0 <= i < |c| :: c[i] in rest
  {
    hide Waits, Chain, EachWaits;
    if k == 0 {
      var n :| n in rest;
      c := [n];
      SingletonChain(tasks, n);
    } else {
      var shorter := LongChain(tasks, rest, k - 1);
      assert shorter[0] in rest;
      var d := WaitedFor(tasks, rest, shorter[0]);
      ChainCons(tasks, d, shorter);
      c := [d] + shorter;
    }
  }

  lemma SomeCycle(tasks: seq<TaskSpec>, rest: set<string>)
    requires rest != {} && EachWaits(tasks, rest)
    ensures !Acyclic(tasks)
  {
    hide Waits, EachWaits, Chain, Cycle;
    var c := LongChain(tasks, rest, |rest|);
    var i, j := Pigeonhole(c, rest);
    SubchainIsCycle(tasks, c, i, j);
  }

  lemma {:induction false} Pigeonhole(c: seq<string>, s: set<string>) returns (i: nat, j: nat)
    requires |c| > |s| && forall k | 0 <= k < |c| :: c[k] in s
    ensures i < j < |c| && c[i] == c[j]
  {
    var last := c[|c| - 1];
    if k :| 0 <= k < |c| - 1 && c[k] == last {
      i, j := k, |c| - 1;
    } else {
      i, j := Pigeonhole(c[..|c| - 1], s - {last});
    }
  }

  lemma SomeNext(tasks: seq<TaskSpec>, rest: set<string>) returns (n: string)
    requires rest != {} && Acyclic(tasks)
    ensures n in rest && forall d :: Waits(tasks, d, n) ==> d !in rest
  {
    hide Waits, Acyclic;
    if EachWaits(tasks, rest) {
      SomeCycle(tasks, rest);
    }
    n :| n in rest && forall d | d in rest :: !Waits(tasks, d, n);
  }

  lemma {:induction false} ExtendOrder(tasks: seq<TaskSpec>, order: seq<string>, rest: set<string>)
    returns (full: seq<string>)
    requires Acyclic(tasks) && Declared(tasks) && LinearExtension(tasks, {}, order)
    requires forall n :: n in Names(tasks) <==> n in order || n in rest
    requires forall n :: n in rest ==> n !in order
    ensures TopologicalOrder(tasks, full)
    decreases rest
  {
    if rest == {} {
      full := order;
    } else {
      hide Acyclic, LinearExtension;
      var n := SomeNext(tasks, rest);
      forall d | Prerequisite(tasks, true, d, n) ensures d in order {
        assert Waits(tasks, d, n);
      }
      LinearExtensionSnoc(tasks, {}, order, n);
      full := ExtendOrder(tasks, order + [n], rest - {n});
    }
  }

  /** The check a caller can make: all dependencies are declared, and DependsOn with serial order has no cycle. */
  lemma SchedulableIffAcyclic(tasks: seq<TaskSpec>)
    ensures Schedulable(tasks) <==> Declared(tasks) && Acyclic(tasks)
  {
    if Declared(tasks) && Acyclic(tasks) {
      var order := ExtendOrder(tasks, [], Names(tasks));
    }
    if order :| TopologicalOrder(tasks, order) {
      forall d, n | Waits(tasks, d, n) ensures d in Names(tasks) {
        PositionsRise(tasks, order, d, n);
      }
      forall c ensures !Cycle(tasks, c) {
        if |c| >= 2 && Chain(tasks, c) {
          ChainRises(tasks, order, c, |c| - 1);
        }
      }
    }
  }

  /**
   A run can complete if and only if its dependencies are declared and acyclic together with
   serial order; and then without reruns and without any Succeeded task regressing.
   */
  lemma CompletesIffAcyclic(s: State)
    requires Fresh(s) && UniqueNames(s.run.tasks)
    ensures Declared(s.run.tasks) && Acyclic(s.run.tasks)
      <==> exists actions :: Run(s, actions).run.phase == Complete
    ensures Declared(s.run.tasks) && Acyclic(s.run.tasks) ==>
      exists actions :: AllOrderly(s, actions, true) && Run(s, actions).run.phase == Complete
  {
    hide Run, AllOrderly, Declared, Acyclic, Schedulable, Fresh, UniqueNames;
    CompletesIffSchedulable(s);
    SchedulableIffAcyclic(s.run.tasks);
  }
}
