/** A Ruby Hash filled by successive `h[k] = v` assignments. */
module RubyHash {

  /** The hash after assigning each pair of `pairs` in order, starting from `{}`. */
  function Assigned<K, V>(pairs: seq<(K, V)>): map<K, V>
  {
    if pairs == [] then map[]
    else Assigned(pairs[..|pairs| - 1])[pairs[|pairs| - 1].0 := pairs[|pairs| - 1].1]
  }

  /**
   * A key is present exactly when some pair assigned it, and it holds the
   * value of the last pair that did: a later duplicate overwrites an earlier one.
   */
  lemma {:induction false} LastAssignmentWins<K, V>(pairs: seq<(K, V)>, k: K)
    ensures k in Assigned(pairs) <==> exists i :: 0 <= i < |pairs| && pairs[i].0 == k
    ensures k in Assigned(pairs) ==>
              exists i :: 0 <= i < |pairs| && pairs[i].0 == k && Assigned(pairs)[k] == pairs[i].1
                          && forall j :: i < j < |pairs| ==> pairs[j].0 != k
    decreases |pairs|
  {
    if pairs != [] {
      var n := |pairs| - 1;
      var front := pairs[..n];
      LastAssignmentWins(front, k);
      assert forall i :: 0 <= i < n ==> front[i] == pairs[i];
      if pairs[n].0 != k && k in Assigned(pairs) {
        var i :| 0 <= i < n && front[i].0 == k && Assigned(front)[k] == front[i].1
                 && forall j :: i < j < n ==> front[j].0 != k;
        assert pairs[i].0 == k && Assigned(pairs)[k] == pairs[i].1;
      }
    }
  }
}
