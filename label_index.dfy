/**
 * The label index of a record collection (the source's `MetaDataset`): one scan over
 * the records builds, for every label, the positions that carry it, and lists the
 * distinct labels in the order they first appear.
 */
module LabelIndex {
  import opened Outcomes
  import opened Seqs

  /** The label component of a record: a plain value, or a tensor with some number of elements. */
  datatype RawLabel<L> = Plain(value: L) | Tensor(elements: seq<L>)

  /** A record of the wrapped collection: `dataset[i]` is `(feature, label)`. */
  datatype Record<F, L> = Record(feature: F, target: RawLabel<L>)

  /**
   * `label.item()`: a tensor with exactly one element yields it, a plain value has no
   * `.item()` and is used as it is, any other tensor cannot be reduced to a scalar.
   */
  function Scalar<L>(raw: RawLabel<L>): (r: Option<L>)
    ensures raw.Plain? ==> r == Some(raw.value)
    ensures raw.Tensor? ==> (r.Some? <==> |raw.elements| == 1)
  {
    match raw
    case Plain(v) => Some(v)
    case Tensor(es) => if |es| == 1 then Some(es[0]) else None
  }

  /** Every one of the first `n` records has a scalar label. */
  predicate ScalarUpTo<F, L>(records: seq<Record<F, L>>, n: nat)
    requires n <= |records|
  {
    forall i | 0 <= i < n :: Scalar(records[i].target).Some?
  }

  /** The scalar labels of the records, position by position. */
  function LabelsOf<F, L>(records: seq<Record<F, L>>): (labels: seq<L>)
    requires ScalarUpTo(records, |records|)
    ensures |labels| == |records|
    ensures forall i | 0 <= i < |records| :: Scalar(records[i].target) == Some(labels[i])
  {
    seq(|records|, i requires 0 <= i < |records| => Scalar(records[i].target).value)
  }

  /** The positions of `labels` that carry `l`, in the order the scan visits them. */
  function Positions<L(==)>(labels: seq<L>, l: L): seq<nat>
  {
    if labels == [] then []
    else Positions(labels[..|labels| - 1], l) + (if labels[|labels| - 1] == l then [|labels| - 1] else [])
  }

  /** The distinct labels, each where it first appears (the key order of the source's dict). */
  function FirstAppearances<L(==)>(labels: seq<L>): seq<L>
  {
    if labels == [] then []
    else
      var seen := FirstAppearances(labels[..|labels| - 1]);
      if labels[|labels| - 1] in seen then seen else seen + [labels[|labels| - 1]]
  }

  /** The label-to-positions map the scan builds. */
  function IndexOf<L(==)>(labels: seq<L>): map<L, seq<nat>>
  {
    map l | l in labels :: Positions(labels, l)
  }

  /** A bucket holds exactly the positions that carry its label, in increasing order. */
  lemma {:induction false} PositionsSpec<L>(labels: seq<L>, l: L)
    ensures forall p: nat :: p in Positions(labels, l) <==> p < |labels| && labels[p] == l
    ensures StrictlyIncreasing(Positions(labels, l))
  {
    if labels != [] {
      var init := labels[..|labels| - 1];
      PositionsSpec(init, l);
      var ps := Positions(labels, l);
      assert ps == Positions(init, l) + (if labels[|labels| - 1] == l then [|labels| - 1] else []);
      forall a, b | 0 <= a < b < |ps| ensures ps[a] < ps[b] {
        if b >= |Positions(init, l)| {
          assert ps[a] in Positions(init, l);
        }
      }
      forall p: nat ensures p in Positions(labels, l) <==> p < |labels| && labels[p] == l {
        if p < |init| {
          assert labels[p] == init[p];
        }
      }
    }
  }

  /** The distinct labels repeat nothing and are exactly the labels that occur. */
  lemma {:induction false} FirstAppearancesSpec<L>(labels: seq<L>)
    ensures NoDuplicates(FirstAppearances(labels))
    ensures forall l :: l in FirstAppearances(labels) <==> l in labels
  {
    if labels != [] {
      var init := labels[..|labels| - 1];
      FirstAppearancesSpec(init);
      assert labels == init + [labels[|labels| - 1]];
    }
  }

  /** Each listed label occurs in the labels. */
  lemma {:induction false} FirstAppearanceOccurs<L>(labels: seq<L>, a: nat)
    requires a < |FirstAppearances(labels)|
    ensures FirstAppearances(labels)[a] in labels
  {
    var init := labels[..|labels| - 1];
    if a < |FirstAppearances(init)| {
      FirstAppearanceOccurs(init, a);
      assert FirstAppearances(labels)[a] == FirstAppearances(init)[a];
      assert labels == init + [labels[|labels| - 1]];
    }
  }

  /** Each label is listed. */
  lemma {:induction false} FirstAppearanceListed<L>(labels: seq<L>, q: nat)
    requires q < |labels|
    ensures labels[q] in FirstAppearances(labels)
  {
    var init := labels[..|labels| - 1];
    if q < |init| {
      FirstAppearanceListed(init, q);
      assert labels[q] == init[q];
    }
  }

  /**
   * The distinct labels are listed by first appearance: a label listed before another
   * already occurs before every position of the later one.
   */
  lemma {:induction false} FirstAppearancesOrder<L>(labels: seq<L>, a: nat, b: nat, q: nat)
    requires a < b < |FirstAppearances(labels)| && q < |labels| && labels[q] == FirstAppearances(labels)[b]
    ensures FirstAppearances(labels)[a] in labels[..q]
  {
    var init, x := labels[..|labels| - 1], labels[|labels| - 1];
    var fa, fa' := FirstAppearances(labels), FirstAppearances(init);
    assert fa == if x in fa' then fa' else fa' + [x];
    assert fa[a] == fa'[a];
    if q == |init| {
      FirstAppearanceOccurs(init, a);
      assert labels[..q] == init;
    } else {
      FirstAppearanceListed(init, q);
      assert labels[q] == init[q];
      assert b < |fa'| && fa[b] == fa'[b];
      FirstAppearancesOrder(init, a, b, q);
      assert labels[..q] == init[..q];
    }
  }

  /**
   * The buckets partition the positions 0..N-1: position `i` lies in the bucket of its
   * own label and in no other, and each bucket is in increasing order.
   */
  lemma IndexIsPartition<L>(labels: seq<L>)
    ensures IndexOf(labels).Keys == Elements(labels)
    ensures forall i | 0 <= i < |labels| :: labels[i] in IndexOf(labels) && i in IndexOf(labels)[labels[i]]
    ensures forall l, p | l in IndexOf(labels) && p in IndexOf(labels)[l] :: p < |labels| && labels[p] == l
    ensures forall l | l in IndexOf(labels) :: StrictlyIncreasing(IndexOf(labels)[l])
  {
    forall l | l in IndexOf(labels)
      ensures forall p: nat :: p in IndexOf(labels)[l] <==> p < |labels| && labels[p] == l
      ensures StrictlyIncreasing(IndexOf(labels)[l])
    {
      PositionsSpec(labels, l);
    }
    forall i | 0 <= i < |labels| ensures i in IndexOf(labels)[labels[i]] {
      PositionsSpec(labels, labels[i]);
    }
  }

  /**
   * The wrapped collection: the records, the label-to-positions map, and the distinct
   * labels in first-appearance order.
   */
  datatype MetaDataset<F, L(==)> = MetaDataset(records: seq<Record<F, L>>, labelsToIndices: map<L, seq<nat>>, labels: seq<L>)
  {
    /** The map and the label list are the ones a scan of the records builds. */
    ghost predicate Valid()
    {
      && ScalarUpTo(records, |records|)
      && labelsToIndices == IndexOf(LabelsOf(records))
      && labels == FirstAppearances(LabelsOf(records))
    }

    /** The map is a `defaultdict(list)`: an absent label reads as an empty bucket. */
    function Bucket(l: L): seq<nat>
    {
      if l in labelsToIndices then labelsToIndices[l] else []
    }

    /** `len(dataset)`. */
    function Length(): nat
    {
      |records|
    }

    /**
     * In a valid dataset the label list holds each label once, exactly the map's keys, and
     * the buckets partition the positions `0 .. len(dataset) - 1` by label.
     */
    lemma Indexed()
      requires Valid()
      ensures NoDuplicates(labels) && Elements(labels) == labelsToIndices.Keys
      ensures forall i | 0 <= i < Length() ::
        var l := LabelsOf(records)[i]; l in labelsToIndices && i in labelsToIndices[l]
      ensures forall l, p | l in labelsToIndices && p in labelsToIndices[l] ::
        p < Length() && LabelsOf(records)[p] == l
    {
      FirstAppearancesSpec(LabelsOf(records));
      IndexIsPartition(LabelsOf(records));
      assert Length() == |LabelsOf(records)|;
    }
  }

  /**
   * `MetaDataset(dataset)` with no precomputed map: scans the records once, appending each
   * position to its label's bucket. Fails at the first record whose label is not a scalar.
   */
  method NewMetaDataset<F, L(==)>(records: seq<Record<F, L>>) returns (r: Result<MetaDataset<F, L>, Error<L>>)
    ensures r.Success? <==> ScalarUpTo(records, |records|)
    ensures r.Failure? ==> r.error.UnsupportedLabel? && var p := r.error.position;
      p < |records| && Scalar(records[p].target).None? && ScalarUpTo(records, p)
    ensures r.Success? ==> r.value.records == records && r.value.Valid()
  {
    var buckets: map<L, seq<nat>> := map[];
    var order: seq<L> := [];
    ghost var seen: seq<L> := [];
    for i := 0 to |records|
      invariant |seen| == i
      invariant forall j | 0 <= j < i :: Scalar(records[j].target) == Some(seen[j])
      invariant buckets == IndexOf(seen)
      invariant order == FirstAppearances(seen)
    {
      var scalar := Scalar(records[i].target);
      if scalar.None? {
        return Failure(UnsupportedLabel(i));
      }
      var x := scalar.value;
      ScanStep(seen, x, buckets, order);
      if x in buckets {
        buckets := buckets[x := buckets[x] + [i]];
      } else {
        buckets := buckets[x := [i]];
        order := order + [x];
      }
      seen := seen + [x];
    }
    assert seen == LabelsOf(records);
    r := Success(MetaDataset(records, buckets, order));
  }

  /** One step of the scan in `NewMetaDataset`, on the map and list built so far. */
  lemma ScanStep<L>(seen: seq<L>, x: L, buckets: map<L, seq<nat>>, order: seq<L>)
    requires buckets == IndexOf(seen) && order == FirstAppearances(seen)
    ensures x in buckets ==>
      IndexOf(seen + [x]) == buckets[x := buckets[x] + [|seen|]] && FirstAppearances(seen + [x]) == order
    ensures x !in buckets ==>
      IndexOf(seen + [x]) == buckets[x := [|seen|]] && FirstAppearances(seen + [x]) == order + [x]
  {
    IndexOfSnoc(seen, x);
    FirstAppearancesSnoc(seen, x);
    assert x in buckets <==> x in seen;
  }

  /** One scan step: the new position joins the end of its label's bucket. */
  lemma PositionsSnoc<L>(seen: seq<L>, x: L, l: L)
    ensures Positions(seen + [x], l) == Positions(seen, l) + (if x == l then [|seen|] else [])
  {
    assert (seen + [x])[..|seen|] == seen;
  }

  /** One scan step on the whole map. */
  lemma IndexOfSnoc<L>(seen: seq<L>, x: L)
    ensures x in seen ==> IndexOf(seen + [x]) == IndexOf(seen)[x := IndexOf(seen)[x] + [|seen|]]
    ensures x !in seen ==> IndexOf(seen + [x]) == IndexOf(seen)[x := [|seen|]]
  {
    var next := seen + [x];
    if x !in seen {
      assert Positions(seen, x) == [] by {
        PositionsSpec(seen, x);
        if Positions(seen, x) != [] {
          assert Positions(seen, x)[0] in Positions(seen, x);
        }
      }
    }
    var m := IndexOf(seen)[x := Positions(seen, x) + [|seen|]];
    assert IndexOf(next).Keys == m.Keys by {
      forall l ensures l in next <==> l in seen || l == x { }
    }
    forall l | l in m ensures IndexOf(next)[l] == m[l] {
      PositionsSnoc(seen, x, l);
    }
    assert IndexOf(next) == m;
    if x !in seen {
      assert Positions(seen, x) + [|seen|] == [|seen|];
    }
  }

  /** One scan step on the key order: a label seen for the first time joins its end. */
  lemma FirstAppearancesSnoc<L>(seen: seq<L>, x: L)
    ensures FirstAppearances(seen + [x]) == if x in seen then FirstAppearances(seen) else FirstAppearances(seen) + [x]
  {
    assert (seen + [x])[..|seen|] == seen;
    FirstAppearancesSpec(seen);
  }


}
