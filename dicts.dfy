/** Python's `dict` from strings to strings: keys are unique and iterate in insertion order;
    assigning to a present key replaces its value in place. */
module Dicts {
  import opened Outcomes

  type Dict = seq<(string, string)>

  /** Every key occurs once. */
  predicate Wf(d: Dict) {
    forall i, j :: 0 <= i < j < |d| ==> d[i].0 != d[j].0
  }

  /** Where `k` sits in `d`, or `|d|` when it is absent. */
  function Position(d: Dict, k: string): (i: nat)
    ensures i <= |d|
    ensures i < |d| ==> d[i].0 == k
    ensures forall j :: 0 <= j < i ==> d[j].0 != k
  {
    if d == [] then 0
    else if d[0].0 == k then 0
    else 1 + Position(d[1..], k)
  }

  /** `d.get(k)` */
  function Get(d: Dict, k: string): Option<string> {
    var i := Position(d, k);
    if i < |d| then Some(d[i].1) else None
  }

  /** `d[k] = v`: overwrite the value where the key sits, or add the pair at the end. */
  function Put(d: Dict, k: string, v: string): (r: Dict)
    ensures Get(r, k) == Some(v)
    ensures forall k' :: k' != k ==> Get(r, k') == Get(d, k')
  {
    var i := Position(d, k);
    if i < |d| then
      var r := d[i := (k, v)];
      assert forall j :: 0 <= j < |d| ==> r[j].0 == d[j].0;
      r
    else
      var r := d + [(k, v)];
      assert forall j :: 0 <= j < |d| ==> r[j] == d[j];
      assert r[|d|] == (k, v);
      r
  }

  /** Assignment keeps the keys unique and the iteration order: a present key stays where it
      is, and a new key goes last. */
  lemma PutShape(d: Dict, k: string, v: string)
    requires Wf(d)
    ensures Wf(Put(d, k, v))
    ensures Get(d, k).Some? ==> |Put(d, k, v)| == |d| && forall j :: 0 <= j < |d| ==> Put(d, k, v)[j].0 == d[j].0
    ensures Get(d, k).None? ==> Put(d, k, v) == d + [(k, v)]
  {
    var i := Position(d, k);
    var r := Put(d, k, v);
    if i < |d| {
      assert forall j :: 0 <= j < |d| ==> r[j].0 == d[j].0;
    } else {
      assert forall j :: 0 <= j < |d| ==> r[j] == d[j];
    }
  }
}
