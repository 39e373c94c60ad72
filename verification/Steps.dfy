/** What one successful CNI call does to the store, as a relation between the stores and the node
    states before and after. `Cni.Add` and `Cni.Del` are proved to be such steps when etcd is
    reliable; runs of calls are sequences of them. */
module Steps {
  import opened Wrappers
  import opened Keys
  import opened Etcd
  import opened Ipam
  import opened NodeModel
  import opened NodeStore

  /** The store is well formed and holds exactly the image of `st` for the node. */
  ghost predicate StoreFor(kv: map<string, string>, cfg: Config, st: NodeState)
    requires cfg.Valid()
  {
    Stored(kv) && ValidState(cfg, st) && Listed(st) && Matches(ViewOf(kv), cfg, st)
  }

  /** The addresses in use when a pod is given one; a new node has taken its gateway by then. */
  ghost function Used(cfg: Config, st: NodeState): seq<string>
    requires Listed(st)
  {
    if st.Absent? then [cfg.texts.host(1)] else Image(cfg, st, Addresses(cfg.node))
  }

  /** A known container changes nothing. An unknown one gets the least free address, on a node that
      is created, with the first host as its gateway, if there is none. */
  ghost predicate AddStep(before: map<string, string>, after: map<string, string>, cfg: Config,
                          st: NodeState, cid: Name, netns: string, nic: Name, next: NodeState)
    requires cfg.Faithful() && IsNetns(netns) && Listed(st)
  {
    && Kept(before, after, cfg.node) && StoreFor(after, cfg, next) && Added(cfg, st, cid, netns, nic, next)
    && ViewOf(after)[Subnets] == ViewOf(before)[Subnets] + (if st.Absent? then [cfg.texts.subnet] else [])
    && (st.Absent? ==> next.gateway == 1)
    && if Knows(st, cid) then after == before
       else FirstFree(cfg.cidr, Used(cfg, st), 1) == Some(next.pods[cid].host)
  }

  /** An unknown container changes nothing; the subnet is returned with the last pod. */
  ghost predicate DelStep(before: map<string, string>, after: map<string, string>, cfg: Config, st: NodeState,
                          cid: Name)
    requires cfg.Valid() && ValidState(cfg, st)
  {
    && (Knows(st, cid) ==> ValidPod(cfg, st, cid))
    && Kept(before, after, cfg.node) && StoreFor(after, cfg, Deleted(st, cid))
    && ViewOf(after)[Subnets] ==
       (if st.Present? && Deleted(st, cid).Absent? then Without(ViewOf(before)[Subnets], cfg.texts.subnet)
        else ViewOf(before)[Subnets])
    && (!Knows(st, cid) ==> after == before)
  }
}
