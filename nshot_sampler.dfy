/**
 * The N-shot K-way sampler: per-label-id position groups built at construction, and
 * episodes whose positions come out in interleaved (transposed) layout.
 */
module NShotSampling {
  import opened Outcomes
  import opened Seqs
  import opened LabelIndex

  /** Python's (and torch's) `s[:k]`: a prefix of `s`; a negative `k` drops `-k` entries from the end. */
  function PrefixSlice<T>(s: seq<T>, k: int): (r: seq<T>)
    ensures r <= s
    ensures 0 <= k ==> |r| == if k <= |s| then k else |s|
    ensures k < 0 ==> |r| == if -k <= |s| then |s| + k else 0
  {
    var n := if 0 <= k then (if k <= |s| then k else |s|) else (if -k <= |s| then |s| + k else 0);
    s[..n]
  }

  /** Python's `max` over a non-empty list. */
  function Max(s: seq<int>): (m: int)
    requires |s| > 0
    ensures m in s
    ensures forall i | 0 <= i < |s| :: s[i] <= m
  {
    if |s| == 1 then s[0]
    else
      var m' := Max(s[..|s| - 1]);
      assert s[..|s| - 1] + [s[|s| - 1]] == s;
      if s[|s| - 1] <= m' then m' else s[|s| - 1]
  }

  /** The number of groups construction builds: `max(labels) + 1`, none when the maximum is negative. */
  function GroupCount(labels: seq<int>): nat
    requires |labels| > 0
  {
    if Max(labels) < 0 then 0 else Max(labels) + 1
  }

  /** `groups[i]` lists, in increasing order, the positions of `labels` that carry `i`, for each `i` up to the maximum label. */
  ghost predicate Groups(groups: seq<seq<nat>>, labels: seq<int>)
  {
    && |labels| > 0
    && |groups| == GroupCount(labels)
    && forall i | 0 <= i < |groups| :: groups[i] == Positions(labels, i)
  }

  /** The groups partition the positions with a label in range: each such position sits in the group of its label, and only there. */
  lemma GroupsPartition(groups: seq<seq<nat>>, labels: seq<int>)
    requires Groups(groups, labels)
    ensures forall i, p: nat {:trigger p in groups[i]} | 0 <= i < |groups| :: p in groups[i] <==> p < |labels| && labels[p] == i
    ensures forall i | 0 <= i < |groups| :: StrictlyIncreasing(groups[i])
    ensures forall p | 0 <= p < |labels| && 0 <= labels[p] :: labels[p] < |groups| && p in groups[labels[p]]
  {
    forall i | 0 <= i < |groups|
      ensures forall p: nat :: p in groups[i] <==> p < |labels| && labels[p] == i
      ensures StrictlyIncreasing(groups[i])
    {
      PositionsSpec(labels, i);
    }
    forall p | 0 <= p < |labels| && 0 <= labels[p] ensures labels[p] < |groups| && p in groups[labels[p]] {
      assert labels[p] <= Max(labels);
      PositionsSpec(labels, labels[p]);
    }
  }

  /** With no negative label, there are at least as many groups as distinct labels. */
  lemma {:induction false} DistinctLabelsFitGroups(labels: seq<int>)
    requires |labels| > 0 && forall p | 0 <= p < |labels| :: 0 <= labels[p]
    ensures |Elements(labels)| <= GroupCount(labels)
  {
    var n := GroupCount(labels);
    var ids := seq(n, i requires 0 <= i < n => i);
    forall x | x in Elements(labels) ensures x in Elements(ids) {
      var p :| 0 <= p < |labels| && labels[p] == x;
      assert ids[x] == x;
    }
    CardinalityOfElements(ids);
    SubsetCardinality(Elements(labels), Elements(ids));
  }

  lemma {:induction false} SubsetCardinality<T>(a: set<T>, b: set<T>)
    requires a <= b
    ensures |a| <= |b|
  {
    if a != {} {
      var x :| x in a;
      SubsetCardinality(a - {x}, b - {x});
    }
  }

  /**
   * Entry `k` of a batch taken in interleaved layout: with `w` chosen groups, it is the
   * entry of group `chosen[k mod w]` at the `k div w`-th place of that group's permutation.
   */
  ghost predicate EntryTaken(batch: seq<nat>, chosen: seq<nat>, groups: seq<seq<nat>>, perms: seq<seq<nat>>, k: nat)
    requires 0 < |chosen| <= |perms| && k < |batch|
    requires forall c | 0 <= c < |chosen| :: chosen[c] < |groups|
  {
    var c, j := k % |chosen|, k / |chosen|;
    && j < |perms[c]| && perms[c][j] < |groups[chosen[c]]|
    && batch[k] == groups[chosen[c]][perms[c][j]]
  }

  /** The layout of entries taken in interleaved layout from the groups `groups[chosen[c]]`. */
  ghost predicate TakenInterleaved(batch: seq<nat>, chosen: seq<nat>, groups: seq<seq<nat>>, perms: seq<seq<nat>>)
    requires 0 < |chosen| <= |perms|
    requires forall c | 0 <= c < |chosen| :: chosen[c] < |groups|
  {
    forall k: nat | k < |batch| :: EntryTaken(batch, chosen, groups, perms, k)
  }

  /**
   * Rows that gather, from the groups `groups[chosen[c]]`, the entries at the first `h`
   * places of a permutation, stacked, transposed and flattened, are taken in interleaved layout.
   */
  lemma InterleavedTaken(batch: seq<nat>, rows: seq<seq<nat>>, h: nat, chosen: seq<nat>, groups: seq<seq<nat>>, perms: seq<seq<nat>>)
    requires 0 < |rows| == |chosen| <= |perms|
    requires forall c | 0 <= c < |chosen| :: chosen[c] < |groups|
    requires forall c | 0 <= c < |rows| ::
      && |rows[c]| == h <= |perms[c]|
      && forall j | 0 <= j < h :: perms[c][j] < |groups[chosen[c]]| && rows[c][j] == groups[chosen[c]][perms[c][j]]
    requires batch == Concat(Transpose(rows, h))
    ensures TakenInterleaved(batch, chosen, groups, perms)
  {
    forall k: nat | k < |batch| ensures EntryTaken(batch, chosen, groups, perms, k) {
      TakenAt(batch, rows, h, chosen, groups, perms, k);
    }
  }

  /** One entry of `InterleavedTaken`. */
  lemma TakenAt(batch: seq<nat>, rows: seq<seq<nat>>, h: nat, chosen: seq<nat>, groups: seq<seq<nat>>, perms: seq<seq<nat>>, k: nat)
    requires 0 < |rows| == |chosen| <= |perms|
    requires forall c | 0 <= c < |chosen| :: chosen[c] < |groups|
    requires forall c | 0 <= c < |rows| ::
      && |rows[c]| == h <= |perms[c]|
      && forall j | 0 <= j < h :: perms[c][j] < |groups[chosen[c]]| && rows[c][j] == groups[chosen[c]][perms[c][j]]
    requires batch == Concat(Transpose(rows, h)) && k < |batch|
    ensures EntryTaken(batch, chosen, groups, perms, k)
  {
    InterleavedLength(rows, h);
    InterleavedEntry(rows, h, k);
    var c, j := k % |rows|, k / |rows|;
    assert j < h && rows[c][j] == groups[chosen[c]][perms[c][j]];
  }

  /** Entries taken in interleaved layout from label groups carry the label of their column's group. */
  lemma InterleavedLabels(batch: seq<nat>, chosen: seq<nat>, groups: seq<seq<nat>>, perms: seq<seq<nat>>, labels: seq<int>)
    requires 0 < |chosen| <= |perms|
    requires forall c | 0 <= c < |chosen| :: chosen[c] < |groups|
    requires forall g, p: nat {:trigger p in groups[g]} | 0 <= g < |groups| :: p in groups[g] <==> p < |labels| && labels[p] == g
    requires TakenInterleaved(batch, chosen, groups, perms)
    ensures forall k | 0 <= k < |batch| :: batch[k] < |labels| && labels[batch[k]] == chosen[k % |chosen|]
  {
    var w := |chosen|;
    forall k | 0 <= k < |batch| ensures batch[k] < |labels| && labels[batch[k]] == chosen[k % w] {
      assert EntryTaken(batch, chosen, groups, perms, k);
      var c, j := k % w, k / w;
      var g := chosen[c];
      assert batch[k] == groups[g][perms[c][j]];
      assert batch[k] in groups[g];
    }
  }

  /** Distinct picks from a permutation, read through an increasing group, are distinct positions. */
  lemma PickedDistinct(group: seq<nat>, perm: seq<nat>, j1: nat, j2: nat)
    requires StrictlyIncreasing(group) && NoDuplicates(perm)
    requires j1 < |perm| && j2 < |perm| && j1 != j2 && perm[j1] < |group| && perm[j2] < |group|
    ensures group[perm[j1]] != group[perm[j2]]
  {
    if j1 < j2 {
      assert perm[j1] != perm[j2];
    } else {
      assert perm[j2] != perm[j1];
    }
  }

  /** Two different entries of an interleaved batch taken from label groups are different positions. */
  lemma InterleavedEntriesDistinct(batch: seq<nat>, chosen: seq<nat>, groups: seq<seq<nat>>, perms: seq<seq<nat>>, labels: seq<int>, k1: nat, k2: nat)
    requires 0 < |chosen| <= |perms| && NoDuplicates(chosen)
    requires forall c | 0 <= c < |chosen| :: chosen[c] < |groups| && NoDuplicates(perms[c])
    requires forall g | 0 <= g < |groups| :: StrictlyIncreasing(groups[g])
    requires forall k | 0 <= k < |batch| :: batch[k] < |labels| && labels[batch[k]] == chosen[k % |chosen|]
    requires TakenInterleaved(batch, chosen, groups, perms)
    requires k1 < k2 < |batch|
    ensures batch[k1] != batch[k2]
  {
    var w := |chosen|;
    DivModNat(k1, w);
    DivModNat(k2, w);
    DivModDistinct(k1, k2, w);
    assert EntryTaken(batch, chosen, groups, perms, k1) && EntryTaken(batch, chosen, groups, perms, k2);
    var c1, c2, j1, j2 := k1 % w, k2 % w, k1 / w, k2 / w;
    if c1 < c2 {
      assert chosen[c1] != chosen[c2];
    } else if c2 < c1 {
      assert chosen[c2] != chosen[c1];
    } else {
      PickedDistinct(groups[chosen[c1]], perms[c1], j1, j2);
    }
  }

  /**
   * Entries taken in interleaved layout from distinct label groups, each at distinct
   * places of its increasing group, repeat nothing.
   */
  lemma InterleavedDistinct(batch: seq<nat>, chosen: seq<nat>, groups: seq<seq<nat>>, perms: seq<seq<nat>>, labels: seq<int>)
    requires 0 < |chosen| <= |perms| && NoDuplicates(chosen)
    requires forall c | 0 <= c < |chosen| :: chosen[c] < |groups| && NoDuplicates(perms[c])
    requires forall g | 0 <= g < |groups| :: StrictlyIncreasing(groups[g])
    requires forall k | 0 <= k < |batch| :: batch[k] < |labels| && labels[batch[k]] == chosen[k % |chosen|]
    requires TakenInterleaved(batch, chosen, groups, perms)
    ensures NoDuplicates(batch)
  {
    forall k1, k2 | 0 <= k1 < k2 < |batch| ensures batch[k1] != batch[k2] {
      InterleavedEntriesDistinct(batch, chosen, groups, perms, labels, k1, k2);
    }
  }

  /**
   * An N-shot K-way sampler: the episode count, `ways`, the rows drawn per group
   * (`shots + query`), and the position groups `index_list`.
   */
  datatype NShotKWayTaskSampler = NShotKWayTaskSampler(episodes: int, ways: int, totalSubsetLen: int, indexList: seq<seq<nat>>)
  {
    /** `len(sampler)`. */
    function Length(): int
    {
      episodes
    }

    /** The groups of an episode: the first `ways` entries of `torch.randperm(len(index_list))`. */
    function Chosen(classPerm: seq<nat>): seq<nat>
    {
      PrefixSlice(classPerm, ways)
    }

    /**
     * The random choices of one episode: a permutation of the group ids, and for each
     * chosen group a permutation of its positions.
     */
    ghost predicate EpisodeDraws(classPerm: seq<nat>, posPerms: seq<seq<nat>>)
    {
      && IsPermutation(classPerm, |indexList|)
      && |posPerms| >= |Chosen(classPerm)|
      && forall c | 0 <= c < |Chosen(classPerm)| ::
           Chosen(classPerm)[c] < |indexList| && IsPermutation(posPerms[c], |indexList[Chosen(classPerm)[c]]|)
    }

    /** `class_subset[pos]`: the entries of `group` at the first `totalSubsetLen` drawn places. */
    function Row(group: seq<nat>, perm: seq<nat>): (row: seq<nat>)
      requires forall j | 0 <= j < |perm| :: perm[j] < |group|
      ensures |row| == |PrefixSlice(perm, totalSubsetLen)| && |row| <= |perm|
      ensures forall j | 0 <= j < |row| :: row[j] == group[perm[j]]
    {
      var pos := PrefixSlice(perm, totalSubsetLen);
      seq(|pos|, j requires 0 <= j < |pos| => group[pos[j]])
    }

    /** The rows an episode stacks, one per chosen group. */
    function Rows(classPerm: seq<nat>, posPerms: seq<seq<nat>>): seq<seq<nat>>
      requires EpisodeDraws(classPerm, posPerms)
    {
      var chosen := Chosen(classPerm);
      seq(|chosen|, c requires 0 <= c < |chosen| => Row(indexList[chosen[c]], posPerms[c]))
    }

    /**
     * One episode of `iter(sampler)`: `torch.stack` of the rows fails when there is no
     * row or the rows differ in length; otherwise the stack is transposed and flattened.
     */
    function Batch(classPerm: seq<nat>, posPerms: seq<seq<nat>>): Result<seq<nat>, Error<int>>
      requires EpisodeDraws(classPerm, posPerms)
    {
      var rows := Rows(classPerm, posPerms);
      if |rows| == 0 || exists c | 0 <= c < |rows| :: |rows[c]| != |rows[0]| then Failure(StackFailed)
      else Success(Concat(Transpose(rows, |rows[0]|)))
    }

    /** The chosen group ids repeat nothing and are all groups; with `ways` non-negative there are `min(ways, len(index_list))` of them. */
    lemma ChosenGroups(classPerm: seq<nat>)
      requires IsPermutation(classPerm, |indexList|)
      ensures NoDuplicates(Chosen(classPerm))
      ensures forall c | 0 <= c < |Chosen(classPerm)| :: Chosen(classPerm)[c] < |indexList|
      ensures 0 <= ways ==> |Chosen(classPerm)| == if ways <= |indexList| then ways else |indexList|
    {
      var chosen := Chosen(classPerm);
      forall c1, c2 | 0 <= c1 < c2 < |chosen| ensures chosen[c1] != chosen[c2] {
        assert chosen[c1] == classPerm[c1] && chosen[c2] == classPerm[c2];
      }
      forall c | 0 <= c < |chosen| ensures chosen[c] < |indexList| {
        assert chosen[c] == classPerm[c];
      }
    }

    /** A stack that succeeds had rows, all as long as the first, and is their transposed flattening. */
    lemma StackedRows(classPerm: seq<nat>, posPerms: seq<seq<nat>>)
      requires EpisodeDraws(classPerm, posPerms) && Batch(classPerm, posPerms).Success?
      ensures var rows := Rows(classPerm, posPerms);
        && 0 < |rows| == |Chosen(classPerm)|
        && (forall c | 0 <= c < |rows| :: |rows[c]| == |rows[0]|)
        && Batch(classPerm, posPerms).value == Concat(Transpose(rows, |rows[0]|))
    {
    }

    /** Row `c` holds, at place `j`, the entry of group `chosen[c]` at the `j`-th drawn place. */
    lemma RowEntries(classPerm: seq<nat>, posPerms: seq<seq<nat>>, h: nat)
      requires EpisodeDraws(classPerm, posPerms)
      requires forall c | 0 <= c < |Chosen(classPerm)| :: |Rows(classPerm, posPerms)[c]| == h
      ensures forall c | 0 <= c < |Chosen(classPerm)| ::
        && |PrefixSlice(posPerms[c], totalSubsetLen)| == h <= |posPerms[c]|
        && forall j | 0 <= j < h ::
             Rows(classPerm, posPerms)[c][j] == indexList[Chosen(classPerm)[c]][posPerms[c][j]]
    {
      var rows, chosen := Rows(classPerm, posPerms), Chosen(classPerm);
      forall c | 0 <= c < |chosen|
        ensures |PrefixSlice(posPerms[c], totalSubsetLen)| == h <= |posPerms[c]|
        ensures forall j | 0 <= j < h :: rows[c][j] == indexList[chosen[c]][posPerms[c][j]]
      {
        assert rows[c] == Row(indexList[chosen[c]], posPerms[c]);
      }
    }

    /** A stacked episode has `w` chosen groups, rows of one common length `h`, and `h * w` entries. */
    lemma BatchShape(classPerm: seq<nat>, posPerms: seq<seq<nat>>, batch: seq<nat>)
      requires EpisodeDraws(classPerm, posPerms) && Batch(classPerm, posPerms) == Success(batch)
      ensures 0 < |Chosen(classPerm)| <= |posPerms|
      ensures var w, h := |Chosen(classPerm)|, |PrefixSlice(posPerms[0], totalSubsetLen)|;
        && |batch| == h * w
        && forall c | 0 <= c < w :: |PrefixSlice(posPerms[c], totalSubsetLen)| == h
    {
      var rows := Rows(classPerm, posPerms);
      StackedRows(classPerm, posPerms);
      RowEntries(classPerm, posPerms, |rows[0]|);
      InterleavedLength(rows, |rows[0]|);
    }

    /**
     * The interleaved layout of a stacked episode: with `w` chosen groups, entry `k` is
     * the `k div w`-th drawn position of the `k mod w`-th chosen group.
     */
    lemma BatchLayout(classPerm: seq<nat>, posPerms: seq<seq<nat>>, batch: seq<nat>)
      requires EpisodeDraws(classPerm, posPerms) && Batch(classPerm, posPerms) == Success(batch)
      ensures 0 < |Chosen(classPerm)| <= |posPerms|
      ensures TakenInterleaved(batch, Chosen(classPerm), indexList, posPerms)
    {
      var rows, chosen := Rows(classPerm, posPerms), Chosen(classPerm);
      StackedRows(classPerm, posPerms);
      var w, h := |chosen|, |rows[0]|;
      RowEntries(classPerm, posPerms, h);
      InterleavedTaken(batch, rows, h, chosen, indexList, posPerms);
    }

    /**
     * Over groups built from `labels`, every entry of a stacked episode is a position
     * whose label is the group id chosen for its column, and no position appears twice.
     */
    lemma BatchLabels(classPerm: seq<nat>, posPerms: seq<seq<nat>>, batch: seq<nat>, labels: seq<int>)
      requires EpisodeDraws(classPerm, posPerms) && Batch(classPerm, posPerms) == Success(batch)
      requires Groups(indexList, labels)
      ensures 0 < |Chosen(classPerm)|
      ensures forall k | 0 <= k < |batch| ::
        batch[k] < |labels| && labels[batch[k]] == Chosen(classPerm)[k % |Chosen(classPerm)|]
      ensures NoDuplicates(batch)
    {
      BatchLayout(classPerm, posPerms, batch);
      ChosenGroups(classPerm);
      GroupsPartition(indexList, labels);
      InterleavedLabels(batch, Chosen(classPerm), indexList, posPerms, labels);
      InterleavedDistinct(batch, Chosen(classPerm), indexList, posPerms, labels);
    }

    /**
     * When some group is chosen and every chosen group holds at least `shots + query`
     * positions, the stack succeeds and the episode has `shots + query` entries per group.
     */
    lemma BatchSucceeds(classPerm: seq<nat>, posPerms: seq<seq<nat>>)
      requires EpisodeDraws(classPerm, posPerms) && 0 <= totalSubsetLen
      requires 0 < |Chosen(classPerm)|
      requires forall c | 0 <= c < |Chosen(classPerm)| :: totalSubsetLen <= |indexList[Chosen(classPerm)[c]]|
      ensures Batch(classPerm, posPerms).Success?
      ensures |Batch(classPerm, posPerms).value| == |Chosen(classPerm)| * totalSubsetLen
    {
      var rows := Rows(classPerm, posPerms);
      assert forall c | 0 <= c < |rows| :: |rows[c]| == totalSubsetLen;
      InterleavedLength(rows, totalSubsetLen);
    }

    /**
     * When every chosen group holds the same number `g` of positions, fewer than
     * `shots + query`, the slices are cut to `g` and the stack still succeeds, with `g`
     * entries per group (none at all when the groups are empty).
     */
    lemma BatchEquallyShort(classPerm: seq<nat>, posPerms: seq<seq<nat>>, g: nat)
      requires EpisodeDraws(classPerm, posPerms) && g < totalSubsetLen
      requires 0 < |Chosen(classPerm)|
      requires forall c | 0 <= c < |Chosen(classPerm)| :: |indexList[Chosen(classPerm)[c]]| == g
      ensures Batch(classPerm, posPerms).Success?
      ensures |Batch(classPerm, posPerms).value| == |Chosen(classPerm)| * g
    {
      var rows := Rows(classPerm, posPerms);
      assert forall c | 0 <= c < |rows| :: |rows[c]| == g;
      InterleavedLength(rows, g);
    }

    /** With no group chosen (`ways` zero, or no groups at all), the stack fails. */
    lemma BatchNeedsGroups(classPerm: seq<nat>, posPerms: seq<seq<nat>>)
      requires EpisodeDraws(classPerm, posPerms)
      requires ways == 0 || |indexList| == 0
      ensures Batch(classPerm, posPerms) == Failure(StackFailed)
    {
    }

    /** The body of one episode: gathers a row per chosen group, then stacks them. */
    method DrawBatch(classPerm: seq<nat>, posPerms: seq<seq<nat>>) returns (r: Result<seq<nat>, Error<int>>)
      requires EpisodeDraws(classPerm, posPerms)
      ensures r == Batch(classPerm, posPerms)
    {
      var classes := Chosen(classPerm);
      var batch: seq<seq<nat>> := [];
      for c := 0 to |classes|
        invariant batch == Rows(classPerm, posPerms)[..c]
      {
        var classSubset := indexList[classes[c]];
        batch := batch + [Row(classSubset, posPerms[c])];
      }
      assert batch == Rows(classPerm, posPerms);
      if |batch| == 0 || exists c | 0 <= c < |batch| :: |batch[c]| != |batch[0]| {
        return Failure(StackFailed);
      }
      r := Success(Concat(Transpose(batch, |batch[0]|)));
    }

    /**
     * `for batch in sampler`: one episode per step, `episodes` of them, stopping at the
     * first episode whose stack fails. `draws[i]` are the choices of the `i`-th episode.
     */
    method Iterate(draws: seq<(seq<nat>, seq<seq<nat>>)>) returns (batches: seq<seq<nat>>, failure: Option<Error<int>>)
      requires |draws| >= episodes
      requires forall i | 0 <= i < |draws| :: EpisodeDraws(draws[i].0, draws[i].1)
      ensures |batches| <= |draws|
      ensures forall i | 0 <= i < |batches| :: Batch(draws[i].0, draws[i].1) == Success(batches[i])
      ensures failure.None? <==> forall i | 0 <= i < episodes :: Batch(draws[i].0, draws[i].1).Success?
      ensures failure.None? ==> |batches| == if episodes < 0 then 0 else episodes
      ensures failure.Some? ==> |batches| < episodes && Batch(draws[|batches|].0, draws[|batches|].1) == Failure(failure.value)
    {
      batches := [];
      var i := 0;
      while i < episodes
        invariant 0 <= i == |batches| <= |draws| && i <= (if episodes < 0 then 0 else episodes)
        invariant forall j | 0 <= j < i :: Batch(draws[j].0, draws[j].1) == Success(batches[j])
      {
        var r := DrawBatch(draws[i].0, draws[i].1);
        if r.Failure? {
          return batches, Some(r.error);
        }
        batches := batches + [r.value];
        i := i + 1;
      }
      failure := None;
    }
  }

  /**
   * `NShotKWayTaskSampler(labels, episodes, ways, shots, query, fixed_classes)`: refuses
   * fixed classes, then fewer than one shot, then more ways than distinct labels, then
   * an empty label list (whose `max` fails); otherwise builds one group per label id
   * from 0 to the maximum label.
   */
  method NewSampler(labels: seq<int>, episodes: int, ways: int, shots: int, query: int, fixedClasses: Option<seq<int>>)
    returns (r: Result<NShotKWayTaskSampler, Error<int>>)
    ensures fixedClasses.Some? ==> r == Failure(FixedClassesUnsupported)
    ensures fixedClasses.None? && shots < 1 ==> r == Failure(ShotsBelowOne)
    ensures fixedClasses.None? && 1 <= shots && ways > |Elements(labels)| ==> r == Failure(TooManyWays)
    ensures fixedClasses.None? && 1 <= shots && ways <= |Elements(labels)| && |labels| == 0 ==> r == Failure(EmptyLabels)
    ensures r.Success? <==> fixedClasses.None? && 1 <= shots && ways <= |Elements(labels)| && |labels| > 0
    ensures r.Success? ==>
      && r.value.episodes == episodes && r.value.ways == ways && r.value.totalSubsetLen == shots + query
      && Groups(r.value.indexList, labels)
  {
    if fixedClasses.Some? {
      return Failure(FixedClassesUnsupported);
    }
    if shots < 1 {
      return Failure(ShotsBelowOne);
    }
    if ways > |Elements(labels)| {
      return Failure(TooManyWays);
    }
    if |labels| == 0 {
      return Failure(EmptyLabels);
    }
    var indexList := BuildGroups(labels);
    r := Success(NShotKWayTaskSampler(episodes, ways, shots + query, indexList));
  }

  /** The first `n` groups: for each label id `i < n`, the positions carrying it. */
  function GroupsUpTo(labels: seq<int>, n: nat): seq<seq<nat>>
  {
    if n == 0 then [] else GroupsUpTo(labels, n - 1) + [Positions(labels, n - 1)]
  }

  /** Group `i` of the first `n` groups holds the positions carrying `i`. */
  lemma {:induction false} GroupsUpToSpec(labels: seq<int>, n: nat)
    ensures |GroupsUpTo(labels, n)| == n
    ensures forall i | 0 <= i < n :: GroupsUpTo(labels, n)[i] == Positions(labels, i)
  {
    if n > 0 {
      GroupsUpToSpec(labels, n - 1);
    }
  }

  /** The loop of the constructor: for each label id from 0 to `max(labels)`, the positions carrying it. */
  method BuildGroups(labels: seq<int>) returns (groups: seq<seq<nat>>)
    requires |labels| > 0
    ensures Groups(groups, labels)
  {
    var top := Max(labels);
    var n := if top < 0 then 0 else top + 1;
    groups := [];
    for i := 0 to n
      invariant groups == GroupsUpTo(labels, i)
    {
      groups := groups + [Positions(labels, i)];
    }
    GroupsUpToSpec(labels, n);
  }
}
