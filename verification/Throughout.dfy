/** Properties of every state of a run. */
module Throughout {

  lemma {:induction false} FittingStepsKeepGood(good: int -> bool, fits: int -> bool, n: nat, k: nat)
    requires k <= n && good(0)
    requires forall j :: 0 <= j < n && good(j) ==> (good(j + 1) <==> fits(j))
    requires forall j :: 0 <= j < n ==> fits(j)
    ensures good(k)
  {
    if k > 0 {
      FittingStepsKeepGood(good, fits, n, k - 1);
      assert fits(k - 1);
    }
  }

  /** When a good state is followed by a good one exactly if the step between them fits, a run
      from a good state is good throughout if and only if all its steps fit. */
  lemma GoodThroughoutIff(good: int -> bool, fits: int -> bool, n: nat)
    requires good(0)
    requires forall k :: 0 <= k < n && good(k) ==> (good(k + 1) <==> fits(k))
    ensures (forall k :: 0 <= k <= n ==> good(k)) <==> (forall k :: 0 <= k < n ==> fits(k))
  {
    if forall k :: 0 <= k < n ==> fits(k) {
      forall k | 0 <= k <= n
        ensures good(k)
      {
        FittingStepsKeepGood(good, fits, n, k);
      }
    }
    if forall k :: 0 <= k <= n ==> good(k) {
      forall k | 0 <= k < n
        ensures fits(k)
      {
        assert good(k) && good(k + 1);
      }
    }
  }
}
