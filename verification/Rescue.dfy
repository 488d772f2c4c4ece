/** From a consistent volume on a failing partition to the restored files, over a whole run. */
module Rescue {
  import opened Clusters
  import opened Content
  import opened Layout
  import opened Device
  import opened Restore
  import opened Recovery
  import opened Marshal
  import opened Storage
  import opened Sessions

  /** A run over units made of the volume's files leaves each of these files as its mode promises. */
  lemma RunRestores<K>(g: Placement, d: Disk<K>, k: K, job: Job, before: Outputs, rs: seq<Record>, i: nat, out: Outputs)
    requires Stores(job.p, g, d) && k in d.files && job.sectorSize == g.sectorSize > 0
    requires i < |rs| && !rs[i].processed && LastOfName(rs, i) && rs[i].extents == ListOf(g, d, k)
    requires Rescued(job, before, rs, out)
    ensures rs[i].name in out && RestoredAs(job.p, g, d, k, job.mode, out[rs[i].name])
  {
    hide Stores, Recovered, ListOf, RestoredAs;
    RestoredFile(job.p, g, d, k, job.mode);
  }
}
