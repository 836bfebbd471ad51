/** Eviction of huge pages against the page-run allocator, whose flag decides whether a page is dropped. */
module DroppedRuns {
  import opened Residency
  import RunModel
  import RunTheorems

  /** Page j of a region, with the flag that the region has for it, is dropped by an eviction exactly if no run in use
      holds it. */
  lemma DroppedIffUnused(n: int, x: Slice, x1: Slice, benched: bool, dest: Option<int>, x': Slice,
                         lo: int, hi: int, t: RunModel.Tags, runs: map<int, RunModel.Run>, j: int)
    requires SliceInv(n, x) && x.pod.state.Local? && !x.pod.small && Evict(n, x, x1, benched, dest, x')
    requires RunModel.Tiling(lo, hi, runs) && 0 <= lo && hi <= |t.mapped| && RunModel.Tagging(t, runs, {})
    requires lo <= j < hi && x.pod.isFree == t.isFree[j]
    ensures x'.pod.state.Init? <==> forall b :: RunModel.Within(runs, b, j) ==> runs[b].free
  {
    var d := RunTheorems.FlagsTell(lo, hi, t, runs, j);
  }
}
