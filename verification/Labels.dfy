/** Area labels in table order, and the first-match search over them. */
module Labels {
  import opened Bytes

  ghost predicate Distinct(labels: seq<uint16>) {
    forall i, j :: 0 <= i < j < |labels| ==> labels[i] != labels[j]
  }

  /** Position of the first label equal to l from position k on, or the number of labels. */
  function FirstFrom(labels: seq<uint16>, l: uint16, k: nat): (i: nat)
    requires k <= |labels|
    ensures k <= i <= |labels|
    ensures i < |labels| ==> labels[i] == l
    ensures forall j :: k <= j < i ==> labels[j] != l
    decreases |labels| - k
  {
    if k == |labels| || labels[k] == l then k else FirstFrom(labels, l, k + 1)
  }

  /** With distinct labels, looking up the label at position i finds exactly position i. */
  lemma LookupFindsPosition(labels: seq<uint16>, i: nat)
    requires Distinct(labels) && i < |labels|
    ensures FirstFrom(labels, labels[i], 0) == i
  {
    var k := FirstFrom(labels, labels[i], 0);
    assert !(i < k);
  }
}
