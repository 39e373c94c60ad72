/** One node's lifecycle as an abstract state, and the store entries that stand for each state. The
    CNI calls of src/cni/cni.cc are proved to keep the store equal to the image of such a state. */
module NodeModel {
  import opened Keys
  import opened Etcd
  import opened Ipv4
  import opened Subnet
  import opened Ipam
  import opened Storage

  /** The VXLAN device of a node. */
  const NAME_VXLAN: Name := "ohnov"

  datatype Mode = HostGw | Vxlan | Evpn

  /** The texts a node stores: its subnet, the address of its VXLAN device and its VTEP, host number
      i in CIDR form, and the default route through that host on a device. */
  datatype Texts = Texts(subnet: string, vxlan: string, vtep: string, host: nat -> string,
                         route: (nat, string) -> string)

  /** What a node's CNI calls are configured with. `cidr` is the podCIDR the API server reports,
      written without leading zeros; `subnet` is the configured cluster subnet; `mac` is the address
      of the VXLAN device. `hosts` and `texts` are what they amount to. */
  datatype Config = Config(node: Name, bridge: Name, underlay: Name, mode: Mode, mac: string, cidr: Cidr, subnet: Cidr,
                           hosts: nat, texts: Texts)
  {
    ghost predicate Valid() {
      bridge != underlay && bridge != NAME_VXLAN && underlay != NAME_VXLAN
    }

    /** The count and the texts are those of the podCIDR. The VXLAN device is given the network
        address, which `Addr` makes a /32. */
    ghost predicate Faithful() {
      && Valid() && NodeNetwork(cidr) && subnet.Valid() && Token(mac) && SEPARATOR !in mac
      && hosts == HostCount(cidr)
      && texts == TextsOf(cidr, mac)
    }
  }

  ghost function TextsOf(cidr: Cidr, mac: string): Texts
    requires cidr.Valid()
  {
    Texts(RenderCidr(cidr), RenderCidr(Cidr(cidr.addr, MAX_PREFIX)), VtepValue(RenderQuad(cidr.addr), mac),
          (i: nat) => if i == 0 then "" else GenerateIp(cidr, i),
          (i: nat, nic: string) => RouteValue(Route("", RenderQuad(HostAddress(cidr, i)), nic)))
  }

  /** A pod's namespace as CNI_NETNS spelled it, its device, and the index of its address. */
  datatype Pod = Pod(netns: string, nic: Name, host: nat)

  /** `order` is the pods other than the root namespace, oldest first; `owner` maps the short name of
      a namespace to its pod; `vtep` tells whether the VTEP entry is still stored. */
  datatype NodeState =
    | Absent
    | Present(gateway: nat, vtep: bool, order: seq<Name>, pods: map<Name, Pod>, owner: map<Name, Name>)

  ghost predicate Distinct<T>(xs: seq<T>) {
    forall i, j | 0 <= i < j < |xs| :: xs[i] != xs[j]
  }

  ghost predicate ValidPod(cfg: Config, st: NodeState, p: Name)
    requires cfg.Valid() && st.Present? && p in st.pods
  {
    var pod := st.pods[p];
    && p != HOST
    && IsNetns(pod.netns) && ShortNetns(pod.netns) != HOST
    && ShortNetns(pod.netns) in st.owner && st.owner[ShortNetns(pod.netns)] == p
    && SEPARATOR !in pod.nic
    && 1 <= pod.host <= cfg.hosts && pod.host != st.gateway
  }

  /** Pods and namespaces are in one-to-one correspondence, the list has every pod once, and no two
      addresses are equal. */
  ghost predicate ValidState(cfg: Config, st: NodeState)
    requires cfg.Valid()
  {
    st.Present? ==>
      && 1 <= st.gateway <= cfg.hosts
      && Distinct(st.order) && (forall p: Name :: p in st.order <==> p in st.pods)
      && (forall p <- st.pods :: ValidPod(cfg, st, p))
      && (forall p <- st.pods, q <- st.pods :: st.pods[p].host == st.pods[q].host ==> p == q)
      && (forall s <- st.owner :: st.owner[s] in st.pods && IsNetns(st.pods[st.owner[s]].netns)
                                  && ShortNetns(st.pods[st.owner[s]].netns) == s)
  }

  /** Between calls a node exists only while it has pods. */
  ghost predicate Quiescent(cfg: Config, st: NodeState)
    requires cfg.Valid()
  {
    ValidState(cfg, st) && (st.Present? ==> st.order != [])
  }

  // ---------------------------------------------------------------- the image in the store

  ghost function HostNics(cfg: Config): seq<Name> {
    if cfg.mode.Vxlan? then [cfg.bridge, NAME_VXLAN, cfg.underlay] else [cfg.bridge, cfg.underlay]
  }

  ghost function HostTexts(cfg: Config, order: seq<Name>, pods: map<Name, Pod>): (r: seq<string>)
    requires forall p <- order :: p in pods
    ensures |r| == |order| && forall i | 0 <= i < |r| :: r[i] == cfg.texts.host(pods[order[i]].host)
  {
    seq(|order|, i requires 0 <= i < |order| => cfg.texts.host(pods[order[i]].host))
  }

  /** Every listed pod has a record. */
  ghost predicate Listed(st: NodeState) {
    st.Present? ==> forall p <- st.order :: p in st.pods
  }

  ghost function Image(cfg: Config, st: NodeState, k: Key): seq<string>
    requires Listed(st)
  {
    if st.Absent? then [] else
      match k
      case Subnets => []
      case NodeSubnet(_) => [cfg.texts.subnet]
      case Addresses(_) => [cfg.texts.host(st.gateway)] + HostTexts(cfg, st.order, st.pods)
      case NetnsOf(_, p) => if p == HOST then [HOST] else if p in st.pods then [st.pods[p].netns] else []
      case PodIn(_, s) => if s == HOST then [HOST] else if s in st.owner then [st.owner[s]] else []
      case Pods(_) => [HOST] + st.order
      case Nics(_, p) => if p == HOST then HostNics(cfg) else if p in st.pods then [st.pods[p].nic] else []
      case Addrs(_, p, i) =>
        if p == HOST then
          if i == cfg.bridge then [cfg.texts.host(st.gateway)]
          else if cfg.mode.Vxlan? && i == NAME_VXLAN then [cfg.texts.vxlan]
          else []
        else if p in st.pods && st.pods[p].nic == i then [cfg.texts.host(st.pods[p].host)] else []
      case Routes(_, p, i) =>
        if p in st.pods && st.pods[p].nic == i then [cfg.texts.route(st.gateway, i)] else []
      case Vtep(_) => if cfg.mode.Vxlan? && st.vtep then [cfg.texts.vtep] else []
  }

  /** The node's entries are exactly the image of `st`. */
  ghost predicate Matches(v: View, cfg: Config, st: NodeState)
    requires Listed(st)
  {
    forall k: Key :: k.Of(cfg.node) ==> k in v && v[k] == Image(cfg, st, k)
  }

  /** Entries of other nodes are the same. */
  ghost predicate OthersKept(v: View, w: View, node: Name) {
    forall k: Key :: k != Subnets && !k.Of(node) ==> k in v && k in w && w[k] == v[k]
  }

  // ---------------------------------------------------------------- transitions

  /** A node that has its gateway and root namespace, and no pod yet. */
  ghost function Created(gateway: nat): NodeState {
    Present(gateway, true, [], map[], map[])
  }

  ghost function WithPod(st: NodeState, cid: Name, pod: Pod): NodeState
    requires st.Present? && IsNetns(pod.netns)
  {
    st.(order := st.order + [cid], pods := st.pods[cid := pod], owner := st.owner[ShortNetns(pod.netns) := cid])
  }

  function WithoutName(xs: seq<Name>, x: Name): seq<Name> {
    if xs == [] then [] else if xs[0] == x then WithoutName(xs[1..], x) else [xs[0]] + WithoutName(xs[1..], x)
  }

  ghost function WithoutPod(st: NodeState, cid: Name): NodeState
    requires st.Present? && cid in st.pods && IsNetns(st.pods[cid].netns)
  {
    Present(st.gateway, false, WithoutName(st.order, cid), st.pods - {cid}, st.owner - {ShortNetns(st.pods[cid].netns)})
  }

  ghost predicate Knows(st: NodeState, cid: Name) {
    st.Present? && cid in st.pods
  }

  /** The namespace has no pod, and is not the root namespace. */
  ghost predicate NamespaceFree(st: NodeState, netns: string)
    requires IsNetns(netns)
  {
    ShortNetns(netns) != HOST && (st.Present? ==> ShortNetns(netns) !in st.owner)
  }

  /** The namespace is the root's, or another pod's. */
  ghost predicate NamespaceOfOther(st: NodeState, netns: string, cid: Name)
    requires IsNetns(netns)
  {
    var s := ShortNetns(netns);
    s == HOST || (st.Present? && s in st.owner && st.owner[s] != cid)
  }

  ghost predicate KnownDevice(st: NodeState, cid: Name, nic: Name) {
    Knows(st, cid) && st.pods[cid].nic == nic
  }

  /** The container's first device, under a name a route can be stored with, or the one it has. */
  ghost predicate Ordinary(st: NodeState, cid: Name, nic: Name) {
    if Knows(st, cid) then st.pods[cid].nic == nic else SEPARATOR !in nic
  }

  ghost predicate HostFree(cfg: Config, st: NodeState, host: nat)
    requires st.Present? && cfg.Valid()
  {
    1 <= host <= cfg.hosts && host != st.gateway && forall p <- st.pods :: st.pods[p].host != host
  }

  /** A successful ADD: nothing for a known container, otherwise one new pod on a free address, on a
      new node if there was none. */
  ghost predicate Added(cfg: Config, st: NodeState, cid: Name, netns: string, nic: Name, next: NodeState)
    requires cfg.Valid() && IsNetns(netns)
  {
    if Knows(st, cid) then next == st else
      && next.Present? && cid in next.pods && NamespaceFree(st, netns)
      && 1 <= next.gateway <= cfg.hosts
      && var base := if st.Absent? then Created(next.gateway) else st;
         var pod := next.pods[cid];
         HostFree(cfg, base, pod.host) && pod == Pod(netns, nic, pod.host) && next == WithPod(base, cid, pod)
  }

  /** A DEL: nothing for an unknown container, otherwise the pod goes, and the node with its last. */
  ghost function Deleted(st: NodeState, cid: Name): NodeState
    requires Knows(st, cid) ==> IsNetns(st.pods[cid].netns)
  {
    if !Knows(st, cid) then st
    else if WithoutPod(st, cid).order == [] then Absent
    else WithoutPod(st, cid)
  }

  // ---------------------------------------------------------------- transitions keep validity

  lemma CreatedValid(cfg: Config, gateway: nat)
    requires cfg.Valid() && 1 <= gateway <= cfg.hosts
    ensures ValidState(cfg, Created(gateway))
  {
  }

  lemma WithPodValid(cfg: Config, st: NodeState, cid: Name, pod: Pod)
    requires cfg.Valid() && ValidState(cfg, st) && st.Present?
    requires cid !in st.pods && cid != HOST && IsNetns(pod.netns) && NamespaceFree(st, pod.netns)
    requires SEPARATOR !in pod.nic && HostFree(cfg, st, pod.host)
    ensures ValidState(cfg, WithPod(st, cid, pod))
  {
    var next := WithPod(st, cid, pod);
    forall p <- next.pods
      ensures ValidPod(cfg, next, p)
    {
      assert p != cid ==> ValidPod(cfg, st, p);
    }
  }

  lemma {:induction false} WithoutNameProps(xs: seq<Name>, x: Name)
    requires Distinct(xs)
    ensures Distinct(WithoutName(xs, x))
    ensures forall y: Name :: y in WithoutName(xs, x) <==> y in xs && y != x
  {
    if xs != [] {
      assert Distinct(xs[1..]);
      assert xs[0] !in xs[1..];
      WithoutNameProps(xs[1..], x);
    }
  }

  lemma WithoutPodValid(cfg: Config, st: NodeState, cid: Name)
    requires cfg.Valid() && ValidState(cfg, st) && Knows(st, cid)
    ensures ValidPod(cfg, st, cid) && ValidState(cfg, WithoutPod(st, cid))
  {
    assert ValidPod(cfg, st, cid);
    var next := WithoutPod(st, cid);
    WithoutNameProps(st.order, cid);
    forall p <- next.pods
      ensures ValidPod(cfg, next, p)
    {
      assert ValidPod(cfg, st, p);
    }
  }
}
