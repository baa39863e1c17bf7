/** The per-task label remap: a bijection between a task's classes and 0..n-1. */
module LabelEncoding {
  import opened Outcomes
  import opened Seqs

  datatype LabelEncoder<L> = LabelEncoder(classToIdx: map<L, nat>, idxToClass: map<nat, L>)

  /** `e` maps `classes[i]` to `i` and `i` back to `classes[i]`, and holds nothing else. */
  ghost predicate Encodes<L>(e: LabelEncoder<L>, classes: seq<L>)
  {
    && e.classToIdx.Keys == Elements(classes)
    && (forall i: nat :: i in e.idxToClass <==> i < |classes|)
    && forall i | 0 <= i < |classes| ::
         classes[i] in e.classToIdx && e.classToIdx[classes[i]] == i && i in e.idxToClass && e.idxToClass[i] == classes[i]
  }

  /**
   * `LabelEncoder(classes)`: rejects a list with a repeated class; otherwise fills both
   * maps in one pass over the list.
   */
  method NewLabelEncoder<L>(classes: seq<L>) returns (r: Result<LabelEncoder<L>, Error<L>>)
    ensures r.Failure? <==> !NoDuplicates(classes)
    ensures r.Failure? ==> r.error == DuplicateClasses
    ensures r.Success? ==> Encodes(r.value, classes)
  {
    CardinalityOfElements(classes);
    if |Elements(classes)| != |classes| {
      return Failure(DuplicateClasses);
    }
    var classToIdx: map<L, nat> := map[];
    var idxToClass: map<nat, L> := map[];
    for idx := 0 to |classes|
      invariant classToIdx.Keys == Elements(classes[..idx])
      invariant forall i: nat :: i in idxToClass <==> i < idx
      invariant forall i | 0 <= i < idx ::
        classes[i] in classToIdx && classToIdx[classes[i]] == i && i in idxToClass && idxToClass[i] == classes[i]
    {
      assert classes[..idx + 1] == classes[..idx] + [classes[idx]];
      classToIdx := classToIdx[classes[idx] := idx];
      idxToClass := idxToClass[idx := classes[idx]];
    }
    assert classes[..|classes|] == classes;
    r := Success(LabelEncoder(classToIdx, idxToClass));
  }

  /** The two maps of an encoder are mutual inverses. */
  lemma EncoderRoundTrip<L>(e: LabelEncoder<L>, classes: seq<L>)
    requires Encodes(e, classes)
    ensures forall x | x in e.classToIdx :: e.classToIdx[x] in e.idxToClass && e.idxToClass[e.classToIdx[x]] == x
    ensures forall i | i in e.idxToClass :: e.idxToClass[i] in e.classToIdx && e.classToIdx[e.idxToClass[i]] == i
  {
    forall x | x in e.classToIdx ensures e.classToIdx[x] in e.idxToClass && e.idxToClass[e.classToIdx[x]] == x {
      assert x in Elements(classes);
      var i :| 0 <= i < |classes| && classes[i] == x;
    }
  }
}
