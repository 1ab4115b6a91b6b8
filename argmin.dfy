/** The scan both the polyline projection and the stop-line search perform:
    walk a sequence of optional costs in index order, skip absent entries,
    and replace the current best only on a STRICTLY smaller cost. The
    winner is therefore the earliest index holding the least cost. */
module ArgMin {
  import opened Wrappers

  /** Index of the best entry among `costs[..n]`, as the scan leaves it after
      `n` steps; `None` while no entry has been present. */
  function EarliestMin(costs: seq<Option<real>>, n: nat): (r: Option<nat>)
    requires n <= |costs|
    ensures r.Some? ==> r.value < n && costs[r.value].Some?
  {
    if n == 0 then None
    else
      var b := EarliestMin(costs, n - 1);
      match costs[n - 1]
      case None => b
      case Some(c) => if b.None? || c < costs[b.value].value then Some(n - 1) else b
  }

  /** `k` holds a cost no larger than any present entry of `costs[..n]` and
      strictly smaller than every present entry before it. */
  ghost predicate IsEarliestMin(costs: seq<Option<real>>, n: nat, k: nat)
    requires n <= |costs|
  {
    && k < n
    && costs[k].Some?
    && (forall j :: 0 <= j < n && costs[j].Some? ==> costs[k].value <= costs[j].value)
    && (forall j :: 0 <= j < k && costs[j].Some? ==> costs[k].value < costs[j].value)
  }

  /** The scan finds nothing exactly when every entry is absent, and
      otherwise returns the earliest least entry. */
  lemma {:induction false} EarliestMinCorrect(costs: seq<Option<real>>, n: nat)
    requires n <= |costs|
    ensures EarliestMin(costs, n).None? <==> forall j :: 0 <= j < n ==> costs[j].None?
    ensures EarliestMin(costs, n).Some? ==> IsEarliestMin(costs, n, EarliestMin(costs, n).value)
  {
    if n > 0 {
      EarliestMinCorrect(costs, n - 1);
    }
  }

  /** At most one index is the earliest least entry, so any index with that
      property is the scan's answer. */
  lemma EarliestMinUnique(costs: seq<Option<real>>, n: nat, k: nat)
    requires n <= |costs|
    requires IsEarliestMin(costs, n, k)
    ensures EarliestMin(costs, n) == Some(k)
  {
    EarliestMinCorrect(costs, n);
  }
}
