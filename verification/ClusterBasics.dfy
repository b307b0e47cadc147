/** What the cluster modules share: node IDs, which are compared as numbers, and the
    number of hash slots. */
module ClusterBasics {
  type Name = nat

  const SLOTS := 16384
}
