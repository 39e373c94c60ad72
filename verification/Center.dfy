/** The cluster data a reconciler gets from the API server, as a snapshot. */
module Center {
  import opened Keys

  datatype NodeInfo = NodeInfo(podCidr: string, internalIp: string)

  type Infos = map<Name, NodeInfo>
}
