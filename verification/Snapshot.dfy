/**
 The canonical form of a task list (internal/dispatch/snapshot.go).

 Tasks are sorted by name, each DependsOn list is sorted, and seven fields are
 projected. What is hashed afterwards is exactly the sequence SnapshotSpec builds.
 */
module Snapshot {
  import opened PipelineTypes

  /** Go's < on strings: the first differing character decides, a proper prefix is smaller. */
  predicate StringLess(a: string, b: string) {
    if b == "" then false
    else if a == "" then true
    else if a[0] != b[0] then a[0] < b[0]
    else StringLess(a[1..], b[1..])
  }

  /** a and b agree up to k, where a ends first or has the smaller character. */
  predicate SmallerAt(a: string, b: string, k: nat) {
    k <= |a| && k < |b| && a[..k] == b[..k] && (k == |a| || a[k] < b[k])
  }

  lemma {:induction false} StringLessIsLexicographic(a: string, b: string)
    ensures StringLess(a, b) <==> exists k: nat :: SmallerAt(a, b, k)
  {
    if a != "" && b != "" && a[0] == b[0] {
      StringLessIsLexicographic(a[1..], b[1..]);
      if k: nat :| SmallerAt(a[1..], b[1..], k) {
        assert a[..k + 1] == [a[0]] + a[1..][..k] && b[..k + 1] == [b[0]] + b[1..][..k];
        assert SmallerAt(a, b, k + 1);
      }
      if k: nat :| SmallerAt(a, b, k) {
        assert k > 0 && a[1..][..k - 1] == a[..k][1..] && b[1..][..k - 1] == b[..k][1..];
        assert SmallerAt(a[1..], b[1..], k - 1);
      }
    } else if a == "" || b == "" {
      assert b != "" ==> SmallerAt(a, b, 0);
    } else {
      assert a[0] < b[0] ==> SmallerAt(a, b, 0);
      if k: nat :| SmallerAt(a, b, k) {
        assert k > 0 ==> a[..k][0] == b[..k][0];
      }
    }
  }

  lemma {:induction false} StringOrderIsTotal(a: string, b: string)
    ensures StringLess(a, b) || StringLess(b, a) || a == b
    ensures !(StringLess(a, b) && StringLess(b, a))
    ensures !StringLess(a, a)
  {
    if a != "" && b != "" {
      if a[0] == b[0] {
        StringOrderIsTotal(a[1..], b[1..]);
        assert a == [a[0]] + a[1..] && b == [b[0]] + b[1..];
      } else {
        StringOrderIsTotal(a[1..], a[1..]);
      }
    } else if a != "" {
      StringOrderIsTotal(a[1..], a[1..]);
    }
  }

  lemma {:induction false} StringOrderIsTransitive(a: string, b: string, c: string)
    requires !StringLess(b, a) && !StringLess(c, b)
    ensures !StringLess(c, a)
  {
    if a != "" && b != "" && c != "" && a[0] == b[0] == c[0] {
      StringOrderIsTransitive(a[1..], b[1..], c[1..]);
    }
  }

  predicate SortedStrings(s: seq<string>) {
    forall i, j | 0 <= i < j < |s| :: !StringLess(s[j], s[i])
  }

  predicate SortedByName(s: seq<TaskSpec>) {
    forall i, j | 0 <= i < j < |s| :: !StringLess(s[j].name, s[i].name)
  }

  lemma WithoutElement<T>(s: seq<T>, k: nat)
    requires k < |s|
    ensures multiset(s[..k] + s[k + 1..]) == multiset(s) - multiset{s[k]}
  {
    assert s == s[..k] + [s[k]] + s[k + 1..];
  }

  lemma WithoutFirst<T>(s: seq<T>)
    requires s != []
    ensures multiset(s[1..]) == multiset(s) - multiset{s[0]}
  {
    WithoutElement(s, 0);
    assert s[..0] + s[1..] == s[1..];
  }

  /** Two sorted lists of the same strings are equal, whatever sorting algorithm made them. */
  lemma {:induction false} SortedStringsAreUnique(a: seq<string>, b: seq<string>)
    requires SortedStrings(a) && SortedStrings(b) && multiset(a) == multiset(b)
    ensures a == b
  {
    hide StringLess;
    if a == [] {
      assert |multiset(b)| == 0;
    } else {
      assert |multiset(a)| == |multiset(b)|;
      assert a[0] in multiset(b) && b[0] in multiset(a);
      StringOrderIsTotal(a[0], b[0]);
      WithoutFirst(a);
      WithoutFirst(b);
      SortedStringsAreUnique(a[1..], b[1..]);
    }
  }

  /** The projection that is marshalled: the seven fields, with DependsOn sorted. */
  datatype Projection = Projection(
    name: string,
    kind: TaskType,
    stage: string,
    executionMode: string,
    dependsOn: seq<string>,
    image: string,
    scriptPath: string)

  ghost predicate Projects(p: Projection, t: TaskSpec) {
    && p.name == t.name && p.kind == t.kind && p.stage == t.stage && p.executionMode == t.executionMode
    && p.image == t.image && p.scriptPath == t.scriptPath
    && SortedStrings(p.dependsOn) && multiset(p.dependsOn) == multiset(t.dependsOn)
  }

  /** The same seven fields with the order of DependsOn forgotten: what a snapshot is meant to identify. */
  datatype View = View(
    name: string,
    kind: TaskType,
    stage: string,
    executionMode: string,
    dependsOn: multiset<string>,
    image: string,
    scriptPath: string)

  function ViewOf(t: TaskSpec): View {
    View(t.name, t.kind, t.stage, t.executionMode, multiset(t.dependsOn), t.image, t.scriptPath)
  }

  function ViewOfProjection(p: Projection): View {
    View(p.name, p.kind, p.stage, p.executionMode, multiset(p.dependsOn), p.image, p.scriptPath)
  }

  function Views(tasks: seq<TaskSpec>): seq<View> {
    seq(|tasks|, i requires 0 <= i < |tasks| => ViewOf(tasks[i]))
  }

  /** projs is a canonical form of tasks: sort by name in some way, then project one by one. */
  ghost predicate IsCanonical(tasks: seq<TaskSpec>, named: seq<TaskSpec>, projs: seq<Projection>) {
    && SortedByName(named) && multiset(named) == multiset(tasks)
    && |projs| == |named| && forall i | 0 <= i < |projs| :: Projects(projs[i], named[i])
  }

  lemma ViewsAround(s: seq<TaskSpec>, k: nat)
    requires k < |s|
    ensures multiset(Views(s)) == multiset(Views(s[..k] + s[k + 1..])) + multiset{ViewOf(s[k])}
  {
    hide ViewOf;
    assert Views(s) == Views(s[..k]) + [ViewOf(s[k])] + Views(s[k + 1..]);
    assert Views(s[..k] + s[k + 1..]) == Views(s[..k]) + Views(s[k + 1..]);
  }

  lemma {:induction false} ViewsFollowPermutation(a: seq<TaskSpec>, b: seq<TaskSpec>)
    requires multiset(a) == multiset(b)
    ensures multiset(Views(a)) == multiset(Views(b))
  {
    hide Views, ViewOf;
    if a == [] {
      assert |multiset(b)| == 0;
      assert a == b;
    } else {
      assert a[0] in multiset(b);
      var k :| 0 <= k < |b| && b[k] == a[0];
      PermutationWithout(a, b, k);
      ViewsFollowPermutation(a[1..], b[..k] + b[k + 1..]);
      ViewsAround(a, 0);
      assert a[..0] + a[1..] == a[1..];
      ViewsAround(b, k);
    }
  }

  lemma PermutationWithout<T>(a: seq<T>, b: seq<T>, k: nat)
    requires multiset(a) == multiset(b) && a != [] && k < |b| && b[k] == a[0]
    ensures multiset(a[1..]) == multiset(b[..k] + b[k + 1..])
  {
    WithoutFirst(a);
    WithoutElement(b, k);
  }

  /** Sorted lists whose views agree up to order, with distinct names, agree position by position. */
  lemma {:induction false} SortedViewsAreUnique(a: seq<View>, b: seq<View>)
    requires multiset(a) == multiset(b)
    requires forall i, j | 0 <= i < j < |a| :: StringLess(a[i].name, a[j].name)
    requires forall i, j | 0 <= i < j < |b| :: !StringLess(b[j].name, b[i].name)
    ensures a == b
  {
    hide StringLess;
    if a == [] {
      assert |multiset(b)| == 0;
    } else {
      assert |multiset(a)| == |multiset(b)|;
      assert a[0] in multiset(b) && b[0] in multiset(a);
      var k :| 0 <= k < |a| && a[k] == b[0];
      var m :| 0 <= m < |b| && b[m] == a[0];
      StringOrderIsTotal(a[0].name, b[0].name);
      assert k == 0;
      WithoutFirst(a);
      WithoutFirst(b);
      SortedViewsAreUnique(a[1..], b[1..]);
    }
  }

  lemma CountedTwice<T>(s: seq<T>, i: nat, j: nat)
    requires i < j < |s| && s[i] == s[j]
    ensures multiset(s)[s[i]] >= 2
  {
    WithoutElement(s, i);
    assert (s[..i] + s[i + 1..])[j - 1] == s[j];
    assert s[j] in multiset(s[..i] + s[i + 1..]);
  }

  lemma CountedOnce(tasks: seq<TaskSpec>, k: nat)
    requires UniqueNames(tasks) && k < |tasks|
    ensures multiset(tasks)[tasks[k]] == 1
  {
    WithoutElement(tasks, k);
    var rest := tasks[..k] + tasks[k + 1..];
    assert tasks[k] in multiset(tasks) && tasks[k] !in rest;
    assert multiset(rest)[tasks[k]] == 0;
  }

  lemma NamesStayDistinct(tasks: seq<TaskSpec>, named: seq<TaskSpec>, i: nat, j: nat)
    requires UniqueNames(tasks) && multiset(named) == multiset(tasks) && i < j < |named|
    ensures named[i].name != named[j].name
  {
    if named[i].name == named[j].name {
      assert named[i] in multiset(named) && named[j] in multiset(named);
      var x :| 0 <= x < |tasks| && tasks[x] == named[i];
      var y :| 0 <= y < |tasks| && tasks[y] == named[j];
      assert x == y;
      CountedTwice(named, i, j);
      CountedOnce(tasks, x);
    }
  }

  lemma CanonicalViews(tasks: seq<TaskSpec>, named: seq<TaskSpec>, projs: seq<Projection>)
    requires IsCanonical(tasks, named, projs)
    ensures |projs| == |named| && forall i | 0 <= i < |projs| :: ViewOfProjection(projs[i]) == ViewOf(named[i])
    ensures multiset(Views(named)) == multiset(Views(tasks))
  {
    ViewsFollowPermutation(named, tasks);
  }

  lemma SortedStrictly(tasks: seq<TaskSpec>, named: seq<TaskSpec>)
    requires UniqueNames(tasks) && SortedByName(named) && multiset(named) == multiset(tasks)
    ensures forall i, j | 0 <= i < j < |named| :: StringLess(Views(named)[i].name, Views(named)[j].name)
  {
    forall i, j | 0 <= i < j < |named| ensures StringLess(named[i].name, named[j].name) {
      NamesStayDistinct(tasks, named, i, j);
      StringOrderIsTotal(named[i].name, named[j].name);
    }
  }

  /**
   Two task lists with distinct names have the same canonical form exactly when they
   hold the same tasks up to the order of the list and of each DependsOn, looking at
   the seven projected fields. The sort may be any sort, stable or not.
   */
  lemma CanonicalFormIdentifiesTasks(
      a: seq<TaskSpec>, namedA: seq<TaskSpec>, projsA: seq<Projection>,
      b: seq<TaskSpec>, namedB: seq<TaskSpec>, projsB: seq<Projection>)
    requires UniqueNames(a)
    requires IsCanonical(a, namedA, projsA) && IsCanonical(b, namedB, projsB)
    ensures projsA == projsB <==> multiset(Views(a)) == multiset(Views(b))
  {
    CanonicalViews(a, namedA, projsA);
    CanonicalViews(b, namedB, projsB);
    if projsA == projsB {
      assert Views(namedA) == Views(namedB);
    }
    if multiset(Views(a)) == multiset(Views(b)) {
      SortedStrictly(a, namedA);
      SortedViewsAreUnique(Views(namedA), Views(namedB));
      forall i | 0 <= i < |projsA| ensures |projsB| == |projsA| && projsA[i] == projsB[i] {
        assert |Views(namedA)| == |Views(namedB)|;
        assert Views(namedA)[i] == Views(namedB)[i];
        assert ViewOfProjection(projsA[i]) == ViewOfProjection(projsB[i]);
        SortedStringsAreUnique(projsA[i].dependsOn, projsB[i].dependsOn);
      }
      assert |projsA| == |projsB|;
    }
  }

  /** The tasks with other retries, approvals and rollout. */
  predicate DiffersOutsideProjection(a: seq<TaskSpec>, b: seq<TaskSpec>) {
    && |a| == |b|
    && forall i | 0 <= i < |a| :: b[i] == a[i].(
         maxRetries := b[i].maxRetries, requiredApprovals := b[i].requiredApprovals, canary := b[i].canary)
  }

  /** So a snapshot does not see how often a task is retried, how many approvals it needs, or whether it is a canary. */
  lemma OtherFieldsAreInvisible(
      a: seq<TaskSpec>, namedA: seq<TaskSpec>, projsA: seq<Projection>,
      b: seq<TaskSpec>, namedB: seq<TaskSpec>, projsB: seq<Projection>)
    requires UniqueNames(a) && DiffersOutsideProjection(a, b)
    requires IsCanonical(a, namedA, projsA) && IsCanonical(b, namedB, projsB)
    ensures projsA == projsB
  {
    assert Views(a) == Views(b) by {
      forall i | 0 <= i < |a| ensures ViewOf(a[i]) == ViewOf(b[i]) {
      }
    }
    CanonicalFormIdentifiesTasks(a, namedA, projsA, b, namedB, projsB);
  }

  // --- The method, with insertion sorts in the place of Go's library sorts ---

  function Inserted<T>(sorted: seq<T>, k: nat, item: T): seq<T>
    requires k <= |sorted|
  {
    sorted[..k] + [item] + sorted[k..]
  }

  lemma InsertedAt<T>(sorted: seq<T>, k: nat, item: T)
    requires k <= |sorted|
    ensures |Inserted(sorted, k, item)| == |sorted| + 1
    ensures forall i {:trigger Inserted(sorted, k, item)[i]} | 0 <= i <= |sorted| ::
      Inserted(sorted, k, item)[i] == if i < k then sorted[i] else if i == k then item else sorted[i - 1]
    ensures multiset(Inserted(sorted, k, item)) == multiset(sorted) + multiset{item}
  {
    assert sorted == sorted[..k] + sorted[k..];
  }

  lemma InsertStrings(sorted: seq<string>, k: nat, item: string)
    requires SortedStrings(sorted) && k <= |sorted|
    requires forall j | 0 <= j < k :: !StringLess(item, sorted[j])
    requires k < |sorted| ==> StringLess(item, sorted[k])
    ensures SortedStrings(Inserted(sorted, k, item))
  {
    hide StringLess, Inserted;
    InsertedAt(sorted, k, item);
    forall j | k <= j < |sorted| ensures !StringLess(sorted[j], item) {
      StringOrderIsTotal(item, sorted[k]);
      if k < j {
        StringOrderIsTransitive(item, sorted[k], sorted[j]);
      }
    }
    var longer := Inserted(sorted, k, item);
    forall i, j | 0 <= i < j < |longer| ensures !StringLess(longer[j], longer[i]) {
    }
  }

  method SortStrings(items: seq<string>) returns (sorted: seq<string>)
    ensures SortedStrings(sorted) && multiset(sorted) == multiset(items)
  {
    hide StringLess, Inserted;
    sorted := [];
    for i := 0 to |items|
      invariant SortedStrings(sorted) && multiset(sorted) == multiset(items[..i])
    {
      var k := 0;
      while k < |sorted| && !StringLess(items[i], sorted[k])
        invariant k <= |sorted|
        invariant forall j | 0 <= j < k :: !StringLess(items[i], sorted[j])
      {
        k := k + 1;
      }
      InsertStrings(sorted, k, items[i]);
      InsertedAt(sorted, k, items[i]);
      assert items[..i + 1] == items[..i] + [items[i]];
      sorted := Inserted(sorted, k, items[i]);
    }
    assert items[..|items|] == items;
  }

  lemma InsertTasks(sorted: seq<TaskSpec>, k: nat, item: TaskSpec)
    requires SortedByName(sorted) && k <= |sorted|
    requires forall j | 0 <= j < k :: !StringLess(item.name, sorted[j].name)
    requires k < |sorted| ==> StringLess(item.name, sorted[k].name)
    ensures SortedByName(Inserted(sorted, k, item))
  {
    hide StringLess, Inserted;
    InsertedAt(sorted, k, item);
    forall j | k <= j < |sorted| ensures !StringLess(sorted[j].name, item.name) {
      StringOrderIsTotal(item.name, sorted[k].name);
      if k < j {
        StringOrderIsTransitive(item.name, sorted[k].name, sorted[j].name);
      }
    }
    var longer := Inserted(sorted, k, item);
    forall i, j | 0 <= i < j < |longer| ensures !StringLess(longer[j].name, longer[i].name) {
    }
  }

  method SortTasks(items: seq<TaskSpec>) returns (sorted: seq<TaskSpec>)
    ensures SortedByName(sorted) && multiset(sorted) == multiset(items)
  {
    hide StringLess, Inserted;
    sorted := [];
    for i := 0 to |items|
      invariant SortedByName(sorted) && multiset(sorted) == multiset(items[..i])
    {
      var k := 0;
      while k < |sorted| && !StringLess(items[i].name, sorted[k].name)
        invariant k <= |sorted|
        invariant forall j | 0 <= j < k :: !StringLess(items[i].name, sorted[j].name)
      {
        k := k + 1;
      }
      InsertTasks(sorted, k, items[i]);
      InsertedAt(sorted, k, items[i]);
      assert items[..i + 1] == items[..i] + [items[i]];
      sorted := Inserted(sorted, k, items[i]);
    }
    assert items[..|items|] == items;
  }

  /** Copies and sorts the tasks, then appends one projection after another. */
  method SnapshotSpec(tasks: seq<TaskSpec>) returns (projs: seq<Projection>)
    ensures exists named :: IsCanonical(tasks, named, projs)
  {
    var named := SortTasks(tasks);
    projs := [];
    for i := 0 to |named|
      invariant |projs| == i && forall k | 0 <= k < i :: Projects(projs[k], named[k])
    {
      var t := named[i];
      var deps := SortStrings(t.dependsOn);
      projs := projs + [Projection(t.name, t.kind, t.stage, t.executionMode, deps, t.image, t.scriptPath)];
    }
    assert IsCanonical(tasks, named, projs);
  }
}
