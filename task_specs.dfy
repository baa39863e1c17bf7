/**
 * The task store of a task generator: the configured classes, and the tasks resolved
 * from the `tasks` argument (every ordered permutation, `n` random draws, or a given
 * list), checked before use.
 */
module TaskSpecs {
  import opened Outcomes
  import opened Seqs

  /** The `tasks` argument: absent, an `int`, a `list`, or a value of some other type. */
  datatype TasksArg<L> = AllPermutations | Count(n: int) | Given(tasks: seq<seq<L>>) | OtherType

  /** What construction settles: the configured classes and the stored tasks. */
  datatype Setup<L> = Setup(classes: seq<L>, tasks: seq<seq<L>>)

  // ---------------------------------------------------------------------------
  // Ordered permutations, as `itertools.permutations(xs, r)` enumerates them

  /** `xs` with the entry at position `i` taken out. */
  function Without<T>(xs: seq<T>, i: nat): (r: seq<T>)
    requires i < |xs|
    ensures |r| == |xs| - 1
  {
    xs[..i] + xs[i + 1..]
  }

  /** `x` put in front of each of `ps`. */
  function Prepend<T>(x: T, ps: seq<seq<T>>): (r: seq<seq<T>>)
    ensures |r| == |ps|
    ensures forall k | 0 <= k < |ps| :: r[k] == [x] + ps[k]
  {
    seq(|ps|, k requires 0 <= k < |ps| => [x] + ps[k])
  }

  /**
   * The ordered choices of `r` entries of `xs` at distinct positions: first those that
   * start with `xs[0]`, then those that start with `xs[1]`, and so on.
   */
  function Permutations<T>(xs: seq<T>, r: nat): seq<seq<T>>
    decreases r, 1
  {
    if r == 0 then [[]] else PermutationsFrom(xs, r, 0)
  }

  /** The permutations of size `r` (r > 0) whose first entry is at position `i` or later. */
  function PermutationsFrom<T>(xs: seq<T>, r: nat, i: nat): seq<seq<T>>
    requires 0 < r && i <= |xs|
    decreases r, 0, |xs| - i
  {
    if i == |xs| then []
    else Prepend(xs[i], Permutations(Without(xs, i), r - 1)) + PermutationsFrom(xs, r, i + 1)
  }

  /** The single-entry choices from two entries, in position order. */
  lemma PermutationsOfPair<T>(u: T, v: T)
    ensures Permutations([u, v], 1) == [[u], [v]]
  {
    var xs := [u, v];
    assert Without(xs, 0) == [v] && Without(xs, 1) == [u];
    var empty: seq<seq<T>> := [[]];
    assert Permutations([u], 0) == empty && Permutations([v], 0) == empty;
    assert [v] + empty[0] == [v] && [u] + empty[0] == [u];
    assert Prepend(v, empty) == [[v]];
    assert Prepend(u, empty) == [[u]];
    assert PermutationsFrom(xs, 1, 2) == [];
    assert PermutationsFrom(xs, 1, 1) == [[v]];
  }

  /** `x` put in front of two single-entry tuples. */
  lemma PrependPair<T>(x: T, a: T, b: T)
    ensures Prepend(x, [[a], [b]]) == [[x, a], [x, b]]
  {
    assert [x] + [a] == [x, a] && [x] + [b] == [x, b];
  }

  /**
   * The enumeration order is the one of `itertools.permutations`: tuples ordered by the
   * positions of their entries, e.g. for `permutations([0, 1, 2], 2)`.
   */
  lemma PermutationsOrderExample()
    ensures Permutations([0, 1, 2], 2) == [[0, 1], [0, 2], [1, 0], [1, 2], [2, 0], [2, 1]]
  {
    var xs := [0, 1, 2];
    assert Without(xs, 0) == [1, 2] && Without(xs, 1) == [0, 2] && Without(xs, 2) == [0, 1];
    PermutationsOfPair(1, 2);
    PermutationsOfPair(0, 2);
    PermutationsOfPair(0, 1);
    PrependPair(2, 0, 1);
    PrependPair(1, 0, 2);
    PrependPair(0, 1, 2);
    assert PermutationsFrom(xs, 2, 3) == [];
    assert PermutationsFrom(xs, 2, 2) == [[2, 0], [2, 1]];
    assert PermutationsFrom(xs, 2, 1) == [[1, 0], [1, 2], [2, 0], [2, 1]];
  }

  function Factorial(n: nat): nat
  {
    if n == 0 then 1 else n * Factorial(n - 1)
  }

  /** n (n-1) ... (n-r+1): the number of ordered choices of r out of n. */
  function Falling(n: nat, r: nat): nat
  {
    if r == 0 then 1 else if n == 0 then 0 else n * Falling(n - 1, r - 1)
  }

  lemma MulAssociates(x: int, y: int, z: int)
    ensures (x * y) * z == x * (y * z)
  {
  }

  lemma MulSucc(m: int, f: int)
    ensures (m + 1) * f == f + m * f
  {
  }

  /** Falling(n, r) is n! / (n-r)! when r <= n. */
  lemma {:induction false} FallingIsFactorialQuotient(n: nat, r: nat)
    requires r <= n
    ensures Falling(n, r) * Factorial(n - r) == Factorial(n)
  {
    if r > 0 {
      FallingIsFactorialQuotient(n - 1, r - 1);
      var a, b := Falling(n - 1, r - 1), Factorial(n - r);
      assert n - 1 - (r - 1) == n - r;
      assert Falling(n, r) == n * a;
      MulAssociates(n, a, b);
    }
  }

  /** There are n!/(n-r)! permutations of size r of n entries (none when r > n). */
  lemma {:induction false} PermutationsCount<T>(xs: seq<T>, r: nat)
    ensures |Permutations(xs, r)| == Falling(|xs|, r)
    decreases r, 1
  {
    if r > 0 {
      PermutationsFromCount(xs, r, 0);
    }
  }

  lemma {:induction false} PermutationsFromCount<T>(xs: seq<T>, r: nat, i: nat)
    requires 0 < r && i <= |xs|
    ensures |PermutationsFrom(xs, r, i)| == if |xs| == 0 then 0 else (|xs| - i) * Falling(|xs| - 1, r - 1)
    decreases r, 0, |xs| - i
  {
    if i < |xs| {
      var f := Falling(|xs| - 1, r - 1);
      PermutationsCount(Without(xs, i), r - 1);
      PermutationsFromCount(xs, r, i + 1);
      assert |PermutationsFrom(xs, r, i)| == f + |PermutationsFrom(xs, r, i + 1)|;
      MulSucc(|xs| - (i + 1), f);
    }
  }

  lemma WithoutMultiset<T>(xs: seq<T>, i: nat)
    requires i < |xs|
    ensures multiset(Without(xs, i)) + multiset{xs[i]} == multiset(xs)
  {
    assert xs == xs[..i] + [xs[i]] + xs[i + 1..];
  }

  /** Every permutation has `r` entries, taken from distinct positions of `xs`. */
  lemma {:induction false} PermutationsSound<T>(xs: seq<T>, r: nat)
    ensures forall p | p in Permutations(xs, r) :: IsSample(p, r, xs)
    decreases r, 1
  {
    if r > 0 {
      PermutationsFromSound(xs, r, 0);
    }
  }

  lemma {:induction false} PermutationsFromSound<T>(xs: seq<T>, r: nat, i: nat)
    requires 0 < r && i <= |xs|
    ensures forall p | p in PermutationsFrom(xs, r, i) :: IsSample(p, r, xs)
    decreases r, 0, |xs| - i
  {
    if i < |xs| {
      var ys := Without(xs, i);
      PermutationsSound(ys, r - 1);
      WithoutMultiset(xs, i);
      PrependSound(xs[i], Permutations(ys, r - 1), r - 1, ys, xs);
      PermutationsFromSound(xs, r, i + 1);
    }
  }

  /** Putting `x` in front of choices from `ys` gives choices from `xs` when `xs` holds `ys` and `x`. */
  lemma PrependSound<T>(x: T, rest: seq<seq<T>>, r: nat, ys: seq<T>, xs: seq<T>)
    requires forall q | q in rest :: IsSample(q, r, ys)
    requires multiset(ys) + multiset{x} == multiset(xs)
    ensures forall p | p in Prepend(x, rest) :: IsSample(p, r + 1, xs)
  {
    forall p | p in Prepend(x, rest) ensures IsSample(p, r + 1, xs) {
      var k :| 0 <= k < |rest| && p == [x] + rest[k];
      assert rest[k] in rest;
      assert multiset(p) == multiset{x} + multiset(rest[k]);
    }
  }

  /** Every choice of `r` entries at distinct positions of `xs`, in any order, is enumerated. */
  lemma {:induction false} PermutationsComplete<T>(xs: seq<T>, r: nat, p: seq<T>)
    requires |p| == r && multiset(p) <= multiset(xs)
    ensures p in Permutations(xs, r)
    decreases r
  {
    if r > 0 {
      var x := p[0];
      assert x in multiset(xs);
      var i :| 0 <= i < |xs| && xs[i] == x;
      var tail := p[1..];
      assert p == [x] + tail;
      TailWithout(xs, i, p);
      PermutationsComplete(Without(xs, i), r - 1, tail);
      var rest := Permutations(Without(xs, i), r - 1);
      var k :| 0 <= k < |rest| && rest[k] == tail;
      assert Prepend(xs[i], rest)[k] == p;
      PermutationsFromReaches(xs, r, 0, i, p);
    }
  }

  /** Once the first entry of `p` is matched at position `i` of `xs`, the rest of `p` is a choice from the rest of `xs`. */
  lemma TailWithout<T>(xs: seq<T>, i: nat, p: seq<T>)
    requires i < |xs| && 0 < |p| && p[0] == xs[i] && multiset(p) <= multiset(xs)
    ensures multiset(p[1..]) <= multiset(Without(xs, i))
  {
    WithoutMultiset(xs, i);
    assert p == [p[0]] + p[1..];
    assert multiset(p) == multiset{p[0]} + multiset(p[1..]);
    forall y ensures multiset(p[1..])[y] <= multiset(Without(xs, i))[y] {
      assert multiset(p)[y] == multiset{p[0]}[y] + multiset(p[1..])[y];
      assert multiset(xs)[y] == multiset(Without(xs, i))[y] + multiset{xs[i]}[y];
    }
  }

  lemma {:induction false} PermutationsFromReaches<T>(xs: seq<T>, r: nat, j: nat, i: nat, p: seq<T>)
    requires 0 < r && j <= i < |xs|
    requires p in Prepend(xs[i], Permutations(Without(xs, i), r - 1))
    ensures p in PermutationsFrom(xs, r, j)
    decreases i - j
  {
    if j < i {
      PermutationsFromReaches(xs, r, j + 1, i, p);
    }
  }

  /** A size-r sequence is one of the permutations exactly when it takes r entries of `xs` at distinct positions. */
  lemma PermutationsMembership<T>(xs: seq<T>, r: nat, p: seq<T>)
    ensures p in Permutations(xs, r) <==> |p| == r && multiset(p) <= multiset(xs)
  {
    PermutationsSound(xs, r);
    if |p| == r && multiset(p) <= multiset(xs) {
      PermutationsComplete(xs, r, p);
    }
  }

  // ---------------------------------------------------------------------------
  // Checks

  /** What the task check means: every class of the task is configured, and none repeats. */
  ghost predicate ValidTask<L>(task: seq<L>, classes: seq<L>)
  {
    (forall x | x in task :: x in classes) && NoDuplicates(task)
  }

  /** `_check_classes`: `len(set(classes) - set(labels)) == 0`. */
  predicate CheckClasses<L(==)>(classes: seq<L>, labels: seq<L>)
  {
    |Elements(classes) - Elements(labels)| == 0
  }

  /** `_check_task`: `len(set(task) - set(classes)) == 0` and `len(set(task)) - len(task) == 0`. */
  predicate CheckTask<L(==)>(task: seq<L>, classes: seq<L>)
  {
    |Elements(task) - Elements(classes)| == 0 && |Elements(task)| - |task| == 0
  }

  /** `_check_classes` holds exactly when every configured class is a label of the dataset. */
  lemma CheckClassesSpec<L>(classes: seq<L>, labels: seq<L>)
    ensures CheckClasses(classes, labels) <==> forall x | x in classes :: x in labels
  {
    if CheckClasses(classes, labels) {
      assert Elements(classes) - Elements(labels) == {};
      forall x | x in classes ensures x in labels {
        assert x in Elements(classes);
        assert x !in Elements(classes) - Elements(labels);
        assert x in Elements(labels);
      }
    } else {
      var y :| y in Elements(classes) - Elements(labels);
      assert y in classes && y !in labels;
    }
  }

  /**
   * `_check_task` accepts exactly the tasks whose classes are all configured and that
   * repeat no class. It does not look at the task's length.
   */
  lemma CheckTaskSpec<L>(task: seq<L>, classes: seq<L>)
    ensures CheckTask(task, classes) <==> ValidTask(task, classes)
  {
    CardinalityOfElements(task);
    CheckClassesSpec(task, classes);
  }

  /** `_check_tasks`: the tasks the task check rejects, in their stored order. */
  function InvalidTasks<L(==)>(tasks: seq<seq<L>>, classes: seq<L>): (bad: seq<seq<L>>)
    ensures forall t | t in bad :: t in tasks && !CheckTask(t, classes)
    ensures forall t | t in tasks && !CheckTask(t, classes) :: t in bad
  {
    if tasks == [] then []
    else (if CheckTask(tasks[0], classes) then [] else [tasks[0]]) + InvalidTasks(tasks[1..], classes)
  }

  /** The list of invalid tasks is empty exactly when every stored task is valid. */
  lemma InvalidTasksEmpty<L>(tasks: seq<seq<L>>, classes: seq<L>)
    ensures |InvalidTasks(tasks, classes)| == 0 <==> forall t | t in tasks :: ValidTask(t, classes)
  {
    forall t | t in tasks ensures CheckTask(t, classes) <==> ValidTask(t, classes) {
      CheckTaskSpec(t, classes);
    }
    if |InvalidTasks(tasks, classes)| != 0 {
      assert InvalidTasks(tasks, classes)[0] in InvalidTasks(tasks, classes);
    }
  }

  // ---------------------------------------------------------------------------
  // Random generation and mode resolution

  /** Each of the first `n` draws is what `random.sample(classes, k=ways)` may return. */
  ghost predicate DrawsFor<L>(draws: seq<seq<L>>, n: int, ways: nat, classes: seq<L>)
  {
    |draws| >= n && forall i | 0 <= i < n :: IsSample(draws[i], ways, classes)
  }

  /** `generate_n_tasks(n)`: one draw per task, `n` tasks (none when `n` <= 0); repeats are kept. */
  function GenerateTasks<L>(draws: seq<seq<L>>, n: int): seq<seq<L>>
    requires |draws| >= n
  {
    if n <= 0 then [] else draws[..n]
  }

  /**
   * Generated tasks: exactly max(n, 0) of them, each a size-`ways` permutation of the
   * classes, hence valid when the classes repeat nothing.
   */
  lemma GeneratedTasks<L>(draws: seq<seq<L>>, n: int, ways: nat, classes: seq<L>)
    requires DrawsFor(draws, n, ways, classes)
    ensures |GenerateTasks(draws, n)| == if n <= 0 then 0 else n
    ensures forall t | t in GenerateTasks(draws, n) :: |t| == ways && t in Permutations(classes, ways)
    ensures NoDuplicates(classes) ==> forall t | t in GenerateTasks(draws, n) :: ValidTask(t, classes)
  {
    forall t | t in GenerateTasks(draws, n)
      ensures |t| == ways && t in Permutations(classes, ways)
      ensures NoDuplicates(classes) ==> ValidTask(t, classes)
    {
      var i :| 0 <= i < n && draws[i] == t;
      PermutationsMembership(classes, ways, t);
      if NoDuplicates(classes) {
        SampleOfDistinct(t, ways, classes);
      }
    }
  }

  /** With no `tasks` argument: every ordered permutation, each valid when the classes repeat nothing. */
  lemma EnumeratedTasks<L>(classes: seq<L>, ways: nat)
    ensures |Permutations(classes, ways)| == Falling(|classes|, ways)
    ensures ways <= |classes| ==> |Permutations(classes, ways)| * Factorial(|classes| - ways) == Factorial(|classes|)
    ensures forall t | t in Permutations(classes, ways) :: |t| == ways
    ensures NoDuplicates(classes) ==> forall t | t in Permutations(classes, ways) :: ValidTask(t, classes)
  {
    PermutationsCount(classes, ways);
    if ways <= |classes| {
      FallingIsFactorialQuotient(|classes|, ways);
    }
    PermutationsSound(classes, ways);
    if NoDuplicates(classes) {
      forall t | t in Permutations(classes, ways) ensures ValidTask(t, classes) {
        SampleOfDistinct(t, ways, classes);
      }
    }
  }

  /** The classes construction uses: the given list, or every label of the dataset. */
  function ResolveClasses<L>(labels: seq<L>, classes: Option<seq<L>>): seq<L>
  {
    if classes.Some? then classes.value else labels
  }

  /** The tasks stored for a `tasks` argument of type None, int or list. */
  function StoredTasks<L>(classes: seq<L>, ways: nat, tasks: TasksArg<L>, draws: seq<seq<L>>): seq<seq<L>>
    requires !tasks.OtherType?
    requires tasks.Count? ==> |draws| >= tasks.n
  {
    match tasks
    case AllPermutations => Permutations(classes, ways)
    case Count(n) => GenerateTasks(draws, n)
    case Given(ts) => ts
  }

  /**
   * The checks and the mode resolution of `TaskGenerator.__init__`, in the source's order:
   * ways against the number of classes, the classes against the dataset's labels, the
   * type of `tasks`, then every stored task.
   */
  function Configure<L(==)>(labels: seq<L>, ways: nat, classes: Option<seq<L>>, tasks: TasksArg<L>, draws: seq<seq<L>>)
    : (r: Result<Setup<L>, Error<L>>)
    requires tasks.Count? && ways <= |ResolveClasses(labels, classes)| ==>
      DrawsFor(draws, tasks.n, ways, ResolveClasses(labels, classes))
    ensures var cls := ResolveClasses(labels, classes);
      r.Success? <==>
        && ways <= |cls|
        && (forall x | x in cls :: x in labels)
        && !tasks.OtherType?
        && forall t | t in StoredTasks(cls, ways, tasks, draws) :: ValidTask(t, cls)
    ensures var cls := ResolveClasses(labels, classes);
      && (|cls| < ways ==> r == Failure(TooManyWays))
      && (ways <= |cls| && !(forall x | x in cls :: x in labels) ==> r == Failure(UnknownClasses))
      && (ways <= |cls| && (forall x | x in cls :: x in labels) && tasks.OtherType? ==> r == Failure(UnsupportedTasksType))
    ensures var cls := ResolveClasses(labels, classes);
      && ways <= |cls| && (forall x | x in cls :: x in labels) && !tasks.OtherType?
      && !(forall t | t in StoredTasks(cls, ways, tasks, draws) :: ValidTask(t, cls))
      ==> r == Failure(MalformedTasks(InvalidTasks(StoredTasks(cls, ways, tasks, draws), cls)))
    ensures r.Failure? && r.error.MalformedTasks? ==>
      var cls := ResolveClasses(labels, classes);
      && |r.error.invalid| > 0
      && (forall t | t in r.error.invalid :: t in StoredTasks(cls, ways, tasks, draws) && !ValidTask(t, cls))
      && (forall t | t in StoredTasks(cls, ways, tasks, draws) && !ValidTask(t, cls) :: t in r.error.invalid)
    ensures r.Success? ==>
      && r.value.classes == ResolveClasses(labels, classes)
      && r.value.tasks == StoredTasks(r.value.classes, ways, tasks, draws)
  {
    var cls := ResolveClasses(labels, classes);
    CheckClassesSpec(cls, labels);
    if |cls| < ways then Failure(TooManyWays)
    else if !CheckClasses(cls, labels) then Failure(UnknownClasses)
    else if tasks.OtherType? then Failure(UnsupportedTasksType)
    else
      var stored := StoredTasks(cls, ways, tasks, draws);
      var invalid := InvalidTasks(stored, cls);
      InvalidTasksEmpty(stored, cls);
      assert forall t | t in stored :: CheckTask(t, cls) <==> ValidTask(t, cls) by {
        forall t | t in stored ensures CheckTask(t, cls) <==> ValidTask(t, cls) {
          CheckTaskSpec(t, cls);
        }
      }
      if |invalid| != 0 then Failure(MalformedTasks(invalid)) else Success(Setup(cls, stored))
  }
}
