/** Worker-pool sizing from pkg/config.go (duplicated in pkg/main.go and
    prioritizationTool.go). The runtime queries GOMAXPROCS(0) and NumCPU()
    are parameters. */
module Config {

  /** The smaller of the scheduler quota and the CPU count. */
  function MaxParallelism(maxProcs: int, numCPU: int): (r: int)
    ensures r <= maxProcs && r <= numCPU
    ensures r == maxProcs || r == numCPU
    ensures maxProcs >= 1 && numCPU >= 1 ==> r >= 1
  {
    if maxProcs < numCPU then maxProcs else numCPU
  }
}
