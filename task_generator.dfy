/**
 * The task generator: the task store built at construction, the two-level episode draw
 * (`sample`), and the iteration cursor over the stored tasks.
 */
module TaskGenerators {
  import opened Outcomes
  import opened Seqs
  import opened LabelIndex
  import opened LabelEncoding
  import opened TaskSpecs

  /** The source's `SampleDataset`: the drawn features, their encoded labels, and the task drawn. */
  datatype SampleDataset<F, L> = SampleDataset(data: seq<F>, labels: seq<int>, sampledTask: seq<L>)

  /** The `dataset` argument: an already wrapped collection, or raw records to wrap. */
  datatype DatasetArg<F, L(==)> = Meta(meta: MetaDataset<F, L>) | Raw(records: seq<Record<F, L>>)

  /** The label universe a generator over `dataset` sees (empty when the raw records cannot be wrapped). */
  ghost function UniverseOf<F, L>(dataset: DatasetArg<F, L>): seq<L>
  {
    match dataset
    case Meta(m) => m.labels
    case Raw(rs) => if ScalarUpTo(rs, |rs|) then FirstAppearances(LabelsOf(rs)) else []
  }

  /** `np.random.choice(bucket, shots, replace=False)` succeeds: the sample size is neither negative nor too large. */
  predicate Fits(shots: int, bucket: seq<nat>)
  {
    0 <= shots <= |bucket|
  }

  /** Each class of `t` has, when the draw from its bucket can succeed, a draw of `s` of its positions. */
  ghost predicate DrawsFit<F, L>(ds: MetaDataset<F, L>, t: seq<L>, s: int, draws: seq<seq<nat>>)
  {
    |draws| == |t| && forall c | 0 <= c < |t| :: Fits(s, ds.Bucket(t[c])) ==> IsSample(draws[c], s, ds.Bucket(t[c]))
  }

  /**
   * `e` (with the drawn `positions`) is an episode of task `t` with `s` shots, in block
   * layout: entry `k` belongs to class `k div s`, is the `k mod s`-th position drawn for
   * it, carries that class's label in the dataset, and is encoded as `k div s`. No
   * position is drawn twice.
   */
  ghost predicate IsEpisode<F, L>(ds: MetaDataset<F, L>, e: SampleDataset<F, L>, positions: seq<nat>, s: int, t: seq<L>, draws: seq<seq<nat>>)
    requires ds.Valid()
  {
    && e.sampledTask == t
    && |positions| == |e.labels| == |e.data| == s * |t|
    && NoDuplicates(positions)
    && forall k | 0 <= k < |positions| ::
         && 0 < s && k / s < |t| && k / s < |draws| && k % s < |draws[k / s]|
         && e.labels[k] == k / s
         && positions[k] == draws[k / s][k % s]
         && positions[k] < |ds.records|
         && LabelsOf(ds.records)[positions[k]] == t[k / s]
         && e.data[k] == ds.records[positions[k]].feature
  }

  /**
   * `draws` holds, for each class `t[c]`, `s` distinct positions of `labels` that carry
   * that class.
   */
  ghost predicate DrawnFrom<L>(labels: seq<L>, t: seq<L>, s: nat, draws: seq<seq<nat>>)
  {
    && |draws| == |t|
    && forall c | 0 <= c < |t| ::
         && |draws[c]| == s && NoDuplicates(draws[c])
         && forall p | p in draws[c] :: p < |labels| && labels[p] == t[c]
  }

  /** The positions drawn for each class repeat nothing and all carry that class's label. */
  lemma DrawnPositions<F, L>(ds: MetaDataset<F, L>, t: seq<L>, s: nat, draws: seq<seq<nat>>)
    requires ds.Valid()
    requires DrawsFit(ds, t, s, draws) && forall c | 0 <= c < |t| :: Fits(s, ds.Bucket(t[c]))
    ensures DrawnFrom(LabelsOf(ds.records), t, s, draws)
  {
    IndexIsPartition(LabelsOf(ds.records));
    forall c | 0 <= c < |t|
      ensures NoDuplicates(draws[c])
      ensures forall p | p in draws[c] :: p < |ds.records| && LabelsOf(ds.records)[p] == t[c]
    {
      var b := ds.Bucket(t[c]);
      assert NoDuplicates(b) by {
        if t[c] in ds.labelsToIndices {
          assert StrictlyIncreasing(b);
        }
      }
      SampleOfDistinct(draws[c], s, b);
      forall p | p in draws[c] ensures p < |ds.records| && LabelsOf(ds.records)[p] == t[c] {
        assert t[c] in ds.labelsToIndices;
        assert b == IndexOf(LabelsOf(ds.records))[t[c]];
        PositionsSpec(LabelsOf(ds.records), t[c]);
        assert p in Positions(LabelsOf(ds.records), t[c]);
      }
    }
  }

  /** `block` is `s` copies of the class index `v`. */
  predicate Filled(block: seq<int>, s: int, v: int)
  {
    |block| == s && forall j | 0 <= j < |block| :: block[j] == v
  }

  /** The encoded labels of blocks of `s` copies of each class index: entry `k` is `k div s`. */
  lemma BlockLabels(blocks: seq<seq<int>>, s: nat)
    requires forall c | 0 <= c < |blocks| :: Filled(blocks[c], s, c)
    ensures |Concat(blocks)| == s * |blocks|
    ensures forall k | 0 <= k < |Concat(blocks)| :: Concat(blocks)[k] == k / s
  {
    ConcatLength(blocks, s);
    forall k | 0 <= k < |Concat(blocks)| ensures Concat(blocks)[k] == k / s {
      ConcatEntry(blocks, s, k);
      assert blocks[k / s][k % s] == k / s;
    }
  }

  /** Entry `k` of the drawn positions in block layout: drawn for class `k / s`, at offset `k % s`. */
  lemma DrawnEntry<L>(labels: seq<L>, t: seq<L>, s: nat, draws: seq<seq<nat>>, k: int)
    requires DrawnFrom(labels, t, s, draws)
    requires 0 <= k < |t| * s
    ensures |Concat<nat>(draws)| == |t| * s
    ensures 0 < s && 0 <= k / s < |t| && 0 <= k % s < s
    ensures Concat<nat>(draws)[k] == draws[k / s][k % s]
    ensures Concat<nat>(draws)[k] < |labels| && labels[Concat<nat>(draws)[k]] == t[k / s]
  {
    ConcatEntry(draws, s, k);
    assert Concat<nat>(draws)[k] in draws[k / s];
  }

  /** Every entry `k` of the draws laid end to end is the `k mod s`-th draw for class `k div s`, and carries its label. */
  lemma DrawnLayout<L>(labels: seq<L>, t: seq<L>, s: nat, draws: seq<seq<nat>>)
    requires DrawnFrom(labels, t, s, draws)
    ensures |Concat<nat>(draws)| == s * |t|
    ensures forall k | 0 <= k < |Concat<nat>(draws)| ::
      && 0 < s && k / s < |t| && k % s < |draws[k / s]|
      && Concat<nat>(draws)[k] == draws[k / s][k % s]
      && Concat<nat>(draws)[k] < |labels| && labels[Concat<nat>(draws)[k]] == t[k / s]
  {
    ConcatLength(draws, s);
    forall k | 0 <= k < |Concat<nat>(draws)|
      ensures && 0 < s && k / s < |t| && k % s < |draws[k / s]|
              && Concat<nat>(draws)[k] == draws[k / s][k % s]
              && Concat<nat>(draws)[k] < |labels| && labels[Concat<nat>(draws)[k]] == t[k / s]
    {
      DrawnEntry(labels, t, s, draws, k);
    }
  }

  /** Two entries of the drawn blocks at different (class, offset) slots are different positions. */
  lemma DrawnSlotsDistinct<L>(labels: seq<L>, t: seq<L>, s: nat, draws: seq<seq<nat>>, c1: nat, j1: nat, c2: nat, j2: nat)
    requires DrawnFrom(labels, t, s, draws) && NoDuplicates(t)
    requires c1 < |t| && c2 < |t| && j1 < s && j2 < s && (c1 != c2 || j1 != j2)
    ensures draws[c1][j1] != draws[c2][j2]
  {
    if c1 != c2 {
      assert draws[c1][j1] in draws[c1] && draws[c2][j2] in draws[c2];
      assert t[c1] != t[c2];
    } else if j1 < j2 {
      assert draws[c1][j1] != draws[c1][j2];
    } else {
      assert draws[c1][j2] != draws[c1][j1];
    }
  }

  /** Two different entries of the block layout of the drawn positions are different positions. */
  lemma DrawnEntriesDistinct<L>(labels: seq<L>, t: seq<L>, s: nat, draws: seq<seq<nat>>, k1: nat, k2: nat)
    requires DrawnFrom(labels, t, s, draws) && NoDuplicates(t)
    requires k1 < k2 < |Concat<nat>(draws)|
    ensures Concat<nat>(draws)[k1] != Concat<nat>(draws)[k2]
  {
    ConcatLength(draws, s);
    DrawnEntry(labels, t, s, draws, k1);
    DrawnEntry(labels, t, s, draws, k2);
    DivModDistinct(k1, k2, s);
    DrawnSlotsDistinct(labels, t, s, draws, k1 / s, k1 % s, k2 / s, k2 % s);
  }

  /** For distinct classes, no position is drawn twice in the whole episode. */
  lemma DrawnDistinct<L>(labels: seq<L>, t: seq<L>, s: nat, draws: seq<seq<nat>>)
    requires DrawnFrom(labels, t, s, draws) && NoDuplicates(t)
    ensures NoDuplicates(Concat<nat>(draws))
  {
    forall k1, k2 | 0 <= k1 < k2 < |Concat<nat>(draws)| ensures Concat<nat>(draws)[k1] != Concat<nat>(draws)[k2] {
      DrawnEntriesDistinct(labels, t, s, draws, k1, k2);
    }
  }

  /** The episode read off a completed draw: the features at the drawn positions, labelled by class index; its layout is `IsEpisode`. */
  function Collate<F, L>(ds: MetaDataset<F, L>, t: seq<L>, s: nat, draws: seq<seq<nat>>, positions: seq<nat>, labels: seq<int>): (e: SampleDataset<F, L>)
    requires ds.Valid() && NoDuplicates(t)
    requires DrawsFit(ds, t, s, draws) && forall c | 0 <= c < |t| :: Fits(s, ds.Bucket(t[c]))
    requires positions == Concat(draws)
    requires |labels| == s * |t| && forall k | 0 <= k < |labels| :: 0 < s && labels[k] == k / s
    ensures IsEpisode(ds, e, positions, s, t, draws)
  {
    DrawnPositions(ds, t, s, draws);
    DrawnLayout(LabelsOf(ds.records), t, s, draws);
    DrawnDistinct(LabelsOf(ds.records), t, s, draws);
    var data := seq(|positions|, k requires 0 <= k < |positions| => ds.records[positions[k]].feature);
    SampleDataset(data, labels, t)
  }

  /**
   * A task generator: the wrapped dataset, `ways`, the default `shots`, the configured
   * classes and the stored tasks (fixed at construction), and the cursor `tasksIdx`.
   */
  class TaskGenerator<F, L(==)> {
    const dataset: MetaDataset<F, L>
    const ways: nat
    const shots: Option<int>
    const classes: seq<L>
    const tasks: seq<seq<L>>
    var tasksIdx: nat

    /** What construction guarantees of the stored configuration. */
    ghost predicate Valid()
    {
      && dataset.Valid()
      && ways <= |classes|
      && (forall x | x in classes :: x in dataset.labels)
      && forall t | t in tasks :: ValidTask(t, classes)
    }

    constructor (dataset: MetaDataset<F, L>, ways: nat, shots: Option<int>, setup: Setup<L>)
      ensures this.dataset == dataset && this.ways == ways && this.shots == shots
      ensures classes == setup.classes && tasks == setup.tasks && tasksIdx == 0
    {
      this.dataset := dataset;
      this.ways := ways;
      this.shots := shots;
      this.classes := setup.classes;
      this.tasks := setup.tasks;
      this.tasksIdx := 0;
    }

    /**
     * `TaskGenerator(dataset, ways, shots, classes, tasks)`: wraps raw records, then runs
     * the checks and the mode resolution of `Configure`. `draws` are the results of
     * `random.sample(classes, k=ways)` for integer `tasks`.
     */
    static method Create(dataset: DatasetArg<F, L>, ways: nat, shots: Option<int>, classes: Option<seq<L>>, tasks: TasksArg<L>, draws: seq<seq<L>>)
      returns (r: Result<TaskGenerator<F, L>, Error<L>>)
      requires dataset.Meta? ==> dataset.meta.Valid()
      requires tasks.Count? && ways <= |ResolveClasses(UniverseOf(dataset), classes)| ==>
        DrawsFor(draws, tasks.n, ways, ResolveClasses(UniverseOf(dataset), classes))
      ensures dataset.Raw? && !ScalarUpTo(dataset.records, |dataset.records|) ==> r.Failure? && r.error.UnsupportedLabel?
      ensures dataset.Meta? || ScalarUpTo(dataset.records, |dataset.records|) ==>
        var c := Configure(UniverseOf(dataset), ways, classes, tasks, draws);
        && (r.Failure? <==> c.Failure?)
        && (r.Failure? ==> r.error == c.error)
        && (r.Success? ==>
             && fresh(r.value) && r.value.Valid() && r.value.tasksIdx == 0
             && r.value.ways == ways && r.value.shots == shots
             && r.value.classes == c.value.classes && r.value.tasks == c.value.tasks
             && (dataset.Meta? ==> r.value.dataset == dataset.meta)
             && (dataset.Raw? ==> r.value.dataset.records == dataset.records))
    {
      var ds: MetaDataset<F, L>;
      if dataset.Meta? {
        ds := dataset.meta;
      } else {
        var wrapped := NewMetaDataset(dataset.records);
        if wrapped.Failure? {
          return Failure(wrapped.error);
        }
        ds := wrapped.value;
      }
      assert ds.labels == UniverseOf(dataset);
      var c := Configure(ds.labels, ways, classes, tasks, draws);
      if c.Failure? {
        return Failure(c.error);
      }
      var g := new TaskGenerator(ds, ways, shots, c.value);
      r := Success(g);
    }

    /** `len(generator)`: the number of stored tasks. */
    function Length(): nat
    {
      |tasks|
    }

    /**
     * The shots and the task `sample` settles on before drawing: an explicit `shots`
     * overrides the default, and with neither there is no episode; an explicit task must
     * pass the task check, otherwise the task is the stored one at the random index `pick`.
     */
    function Request(shotsArg: Option<int>, taskArg: Option<seq<L>>, pick: nat): (r: Result<(int, seq<L>), Error<L>>)
      requires Valid()
      requires |tasks| > 0 ==> pick < |tasks|
      ensures r == Failure(MissingShots) <==> shotsArg.None? && shots.None?
      ensures r.Success? ==> r.value.0 == if shotsArg.Some? then shotsArg.value else shots.value
      ensures r.Success? ==> ValidTask(r.value.1, classes)
      ensures shotsArg.Some? || shots.Some? ==>
        && (taskArg.None? && |tasks| == 0 ==> r == Failure(EmptyTaskList))
        && (taskArg.None? && |tasks| > 0 ==> r.Success? && r.value.1 == tasks[pick])
        && (taskArg.Some? ==> (r.Success? <==> ValidTask(taskArg.value, classes)))
        && (taskArg.Some? && r.Success? ==> r.value.1 == taskArg.value)
        && (taskArg.Some? && r.Failure? ==> r.error == MalformedTask)
    {
      if shotsArg.None? && shots.None? then Failure(MissingShots)
      else
        var s := if shotsArg.Some? then shotsArg.value else shots.value;
        match taskArg
        case None =>
          if |tasks| == 0 then Failure(EmptyTaskList)
          else
            assert tasks[pick] in tasks;
            Success((s, tasks[pick]))
        case Some(t) =>
          CheckTaskSpec(t, classes);
          if CheckTask(t, classes) then Success((s, t)) else Failure(MalformedTask)
    }

    /**
     * The drawing loop of `sample`: for each class of `t`, in order, takes its `s` drawn
     * positions (`draws[c]`) and appends `s` copies of its encoded index. It stops at the
     * first class whose bucket draw cannot succeed and reports that class's place.
     */
    method DrawBlocks(t: seq<L>, s: int, classToIdx: map<L, nat>, draws: seq<seq<nat>>)
      returns (failed: Option<nat>, positions: seq<nat>, labels: seq<int>)
      requires |draws| == |t|
      requires forall c | 0 <= c < |t| :: t[c] in classToIdx && classToIdx[t[c]] == c
      ensures failed.None? <==> forall c | 0 <= c < |t| :: Fits(s, dataset.Bucket(t[c]))
      ensures failed.Some? ==>
        && failed.value < |t| && !Fits(s, dataset.Bucket(t[failed.value]))
        && forall c | 0 <= c < failed.value :: Fits(s, dataset.Bucket(t[c]))
      ensures failed.None? ==> positions == Concat(draws)
      ensures failed.None? ==>
        && |labels| == s * |t|
        && forall k | 0 <= k < |labels| :: 0 < s && labels[k] == k / s
    {
      positions, labels := [], [];
      ghost var blocks: seq<seq<int>> := [];
      for c := 0 to |t|
        invariant forall c' | 0 <= c' < c :: Fits(s, dataset.Bucket(t[c']))
        invariant positions == Concat(draws[..c])
        invariant |blocks| == c && labels == Concat(blocks)
        invariant forall c' | 0 <= c' < c :: Filled(blocks[c'], s, c')
      {
        var bucket := dataset.Bucket(t[c]);
        if !(0 <= s <= |bucket|) {
          return Some(c), [], [];
        }
        assert draws[..c + 1][..c] == draws[..c];
        positions := positions + draws[c];
        var block := seq(s, _ => classToIdx[t[c]]);
        assert Filled(block, s, c);
        assert (blocks + [block])[..c] == blocks;
        labels := labels + block;
        blocks := blocks + [block];
      }
      assert draws[..|t|] == draws;
      failed := None;
      if |t| > 0 {
        BlockLabels(blocks, s);
      }
    }

    /**
     * The outcome of drawing an episode of task `t` with `s` shots: it succeeds exactly
     * when every class's bucket draw can succeed, and is then an episode in block layout;
     * otherwise it names the first class whose draw fails.
     */
    ghost predicate DrawOutcome(s: int, t: seq<L>, draws: seq<seq<nat>>, r: Result<SampleDataset<F, L>, Error<L>>, positions: seq<nat>)
      requires dataset.Valid()
    {
      && (r.Success? <==> forall c | 0 <= c < |t| :: Fits(s, dataset.Bucket(t[c])))
      && (r.Success? ==> IsEpisode(dataset, r.value, positions, s, t, draws))
      && (r.Failure? ==>
           && r.error.DrawFailed?
           && exists c | 0 <= c < |t| ::
                && t[c] == r.error.which && !Fits(s, dataset.Bucket(t[c]))
                && forall c' | 0 <= c' < c :: Fits(s, dataset.Bucket(t[c'])))
    }

    /**
     * The second half of `sample`, once the shots `s` and the task `t` are settled:
     * encodes the task's classes, draws their positions, and reads the drawn features.
     */
    method DrawEpisode(s: int, t: seq<L>, draws: seq<seq<nat>>) returns (r: Result<SampleDataset<F, L>, Error<L>>, positions: seq<nat>)
      requires dataset.Valid() && NoDuplicates(t)
      requires DrawsFit(dataset, t, s, draws)
      ensures DrawOutcome(s, t, draws, r, positions)
    {
      var encoder := NewLabelEncoder(t);
      if encoder.Failure? {
        assert false;
      }
      var enc := encoder.value;
      var failed, drawn, labels := DrawBlocks(t, s, enc.classToIdx, draws);
      if failed.Some? {
        var c := failed.value;
        return Failure(DrawFailed(t[c])), [];
      }
      positions := drawn;
      if |t| == 0 {
        r := Success(SampleDataset([], labels, t));
        return;
      }
      var ss: nat := s;
      r := Success(Collate(dataset, t, ss, draws, positions, labels));
    }

    /**
     * `sample(shots, task)`: settles the shots and the task (`Request`), then for each
     * class of the task, in order, draws `s` positions without replacement from its bucket
     * (`draws[c]`, the result of `np.random.choice`) and labels them with the class's
     * encoded index. `pick` is the result of `random.randint` and is used only when no
     * task is given. The drawn positions are returned beside the episode.
     */
    method Sample(shotsArg: Option<int>, taskArg: Option<seq<L>>, pick: nat, draws: seq<seq<nat>>)
      returns (r: Result<SampleDataset<F, L>, Error<L>>, positions: seq<nat>)
      requires Valid()
      requires |tasks| > 0 ==> pick < |tasks|
      requires var q := Request(shotsArg, taskArg, pick); q.Success? ==> DrawsFit(dataset, q.value.1, q.value.0, draws)
      ensures var q := Request(shotsArg, taskArg, pick); q.Failure? ==> r == Failure(q.error)
      ensures var q := Request(shotsArg, taskArg, pick); q.Success? ==> DrawOutcome(q.value.0, q.value.1, draws, r, positions)
    {
      var q := Request(shotsArg, taskArg, pick);
      if q.Failure? {
        return Failure(q.error), [];
      }
      r, positions := DrawEpisode(q.value.0, q.value.1, draws);
    }

    /** `iter(generator)`: rewinds the cursor to the first stored task. */
    method Iter()
      modifies this
      ensures tasksIdx == 0
    {
      tasksIdx := 0;
    }

    /**
     * `next(generator)`: samples the stored task under the cursor with the default shots,
     * then advances the cursor; past the last task it stops instead. A failed draw leaves
     * the cursor where it was. The drawn positions are returned beside the episode.
     */
    method Next(draws: seq<seq<nat>>) returns (r: Result<SampleDataset<F, L>, Error<L>>, positions: seq<nat>)
      requires Valid()
      requires tasksIdx < |tasks| && shots.Some? ==> DrawsFit(dataset, tasks[tasksIdx], shots.value, draws)
      modifies this
      ensures old(tasksIdx) >= |tasks| ==> r == Failure(StopIteration) && tasksIdx == old(tasksIdx)
      ensures old(tasksIdx) < |tasks| && shots.None? ==> r == Failure(MissingShots)
      ensures old(tasksIdx) < |tasks| && shots.Some? ==> DrawOutcome(shots.value, tasks[old(tasksIdx)], draws, r, positions)
      ensures old(tasksIdx) < |tasks| ==> tasksIdx == if r.Success? then old(tasksIdx) + 1 else old(tasksIdx)
    {
      if tasksIdx >= |tasks| {
        return Failure(StopIteration), [];
      }
      var t := tasks[tasksIdx];
      assert t in tasks;
      r, positions := Sample(None, Some(t), 0, draws);
      if r.Success? {
        tasksIdx := tasksIdx + 1;
      }
    }

    /**
     * `for episode in generator`: rewinds the cursor and calls `next` until it stops or a
     * draw fails. `stepDraws[i]` are the draws of the `i`-th step. Every episode samples
     * the stored task at its own step, and when every stored task can be drawn with the
     * default shots, the loop yields exactly `len(generator)` episodes and then stops.
     */
    method Drain(stepDraws: seq<seq<seq<nat>>>) returns (episodes: seq<SampleDataset<F, L>>, stop: Error<L>)
      requires Valid()
      requires shots.Some? ==>
        |stepDraws| >= |tasks| && forall i | 0 <= i < |tasks| :: DrawsFit(dataset, tasks[i], shots.value, stepDraws[i])
      modifies this
      ensures |episodes| <= Length() && tasksIdx == |episodes|
      ensures forall i | 0 <= i < |episodes| :: episodes[i].sampledTask == tasks[i]
      ensures stop == StopIteration <==> |episodes| == Length()
      ensures shots.Some? && (forall t, x | t in tasks && x in t :: Fits(shots.value, dataset.Bucket(x))) ==>
        stop == StopIteration
    {
      Iter();
      episodes := [];
      while true
        invariant tasksIdx == |episodes| <= |tasks|
        invariant forall i | 0 <= i < |episodes| :: episodes[i].sampledTask == tasks[i]
        decreases |tasks| - tasksIdx
      {
        var draws := if tasksIdx < |stepDraws| then stepDraws[tasksIdx] else [];
        var r, _ := Next(draws);
        if r.Failure? {
          stop := r.error;
          if tasksIdx < |tasks| && shots.Some? && forall t, x | t in tasks && x in t :: Fits(shots.value, dataset.Bucket(x)) {
            var t := tasks[tasksIdx];
            assert t in tasks;
            forall c | 0 <= c < |t| ensures Fits(shots.value, dataset.Bucket(t[c])) {
              assert t[c] in t;
            }
            assert false;
          }
          return;
        }
        episodes := episodes + [r.value];
      }
    }
  }
}
