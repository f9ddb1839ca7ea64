/** The worker-thread count of the database runtime (src/core/runtime.rs). */
module Runtime {
  import opened Wrappers

  const MinWorkers: nat := 4
  const MaxWorkers: nat := 16

  /** `Ord::clamp`. */
  function Clamp(x: int, lo: int, hi: int): (r: int)
    requires lo <= hi
    ensures lo <= r <= hi
    ensures lo <= x <= hi ==> r == x
    ensures x < lo ==> r == lo
    ensures x > hi ==> r == hi
  {
    if x < lo then lo else if x > hi then hi else x
  }

  /** `num_cpus`: the available parallelism (4 when it cannot be read),
      clamped into the band 4..16. */
  function NumCpus(parallelism: Option<nat>): (n: nat)
    requires parallelism.Some? ==> parallelism.value >= 1
    ensures MinWorkers <= n <= MaxWorkers
    ensures parallelism.None? ==> n == MinWorkers
    ensures parallelism.Some? && MinWorkers <= parallelism.value <= MaxWorkers ==> n == parallelism.value
    ensures parallelism.Some? && parallelism.value < MinWorkers ==> n == MinWorkers
    ensures parallelism.Some? && parallelism.value > MaxWorkers ==> n == MaxWorkers
  {
    var cpus := match parallelism case Some(p) => p case None => 4;
    Clamp(cpus, MinWorkers, MaxWorkers)
  }

  /** More parallelism never means fewer workers. */
  lemma NumCpusMonotone(p: nat, q: nat)
    requires 1 <= p <= q
    ensures NumCpus(Some(p)) <= NumCpus(Some(q))
  {
  }
}
