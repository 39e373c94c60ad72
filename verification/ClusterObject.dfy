/** The cluster object that src/cni/cni.cc rebuilds from the store: what it is for each node state, that
    stored texts read back as it, and how adding and removing a pod change it. */
module ClusterObject {
  import opened Text
  import opened Wrappers
  import opened Keys
  import opened Etcd
  import opened Ipv4
  import opened Subnet
  import opened Ipam
  import opened Storage
  import opened NodeModel
  import opened NodeStore
  import opened Steps

  // ---------------------------------------------------------------- the cluster object

  /** A device with its addresses and routes, a pod with its devices, a node with its namespaces. */
  datatype NicObj = NicObj(name: Name, addrs: seq<Cidr>, routes: seq<Route>)
  datatype PodObj = PodObj(name: Name, nics: map<Name, NicObj>)
  datatype NodeObj = NodeObj(subnet: Cidr, pods: map<Name, PodObj>)

  datatype CniError = NoSubnet | NoAddress | NamespaceInUse | OutsideSubnet | StoreFailed

  /** What ADD reports: the pod's address and its gateway. */
  datatype CniResult = CniResult(address: string, gateway: string)

  ghost function HostCidr(cfg: Config, host: nat): Cidr
    requires cfg.Faithful()
  {
    Cidr(HostAddress(cfg.cidr, host), cfg.cidr.prefix)
  }

  /** A pod's device: one address, and the default route through the gateway. */
  ghost function PodNic(cfg: Config, nic: Name, host: nat, gateway: nat): NicObj
    requires cfg.Faithful()
  {
    NicObj(nic, [HostCidr(cfg, host)], [Route("", RenderQuad(HostAddress(cfg.cidr, gateway)), nic)])
  }

  ghost function NicImage(cfg: Config, st: NodeState, p: Name, i: Name): NicObj
    requires cfg.Faithful() && st.Present?
  {
    if p == HOST then
      if i == cfg.bridge then NicObj(i, [HostCidr(cfg, st.gateway)], [])
      else if cfg.mode.Vxlan? && i == NAME_VXLAN then NicObj(i, [Cidr(cfg.cidr.addr, MAX_PREFIX)], [])
      else NicObj(i, [], [])
    else if p in st.pods && st.pods[p].nic == i then PodNic(cfg, i, st.pods[p].host, st.gateway)
    else NicObj(i, [], [])
  }

  ghost function NicNames(cfg: Config, st: NodeState, p: Name): seq<Name>
    requires st.Present?
  {
    if p == HOST then HostNics(cfg) else if p in st.pods then [st.pods[p].nic] else []
  }

  ghost function PodImage(cfg: Config, st: NodeState, p: Name): PodObj
    requires cfg.Faithful() && st.Present?
  {
    PodObj(p, NicsOf(cfg, st, p, NicNames(cfg, st, p)))
  }

  ghost function NicsOf(cfg: Config, st: NodeState, p: Name, names: seq<Name>): map<Name, NicObj>
    requires cfg.Faithful() && st.Present?
  {
    map i: Name | i in names :: NicImage(cfg, st, p, i)
  }

  ghost function PodsOf(cfg: Config, st: NodeState, names: seq<Name>): map<Name, PodObj>
    requires cfg.Faithful() && st.Present?
  {
    map p: Name | p in names :: PodImage(cfg, st, p)
  }

  lemma NicsOfStep(cfg: Config, st: NodeState, p: Name, names: seq<Name>, j: nat)
    requires cfg.Faithful() && st.Present? && j < |names|
    ensures NicsOf(cfg, st, p, names[..j + 1]) ==
      NicsOf(cfg, st, p, names[..j])[names[j] := NicImage(cfg, st, p, names[j])]
  {
    hide NicImage, TextsOf;
    assert names[..j + 1] == names[..j] + [names[j]];
  }

  lemma NicsOfNone(cfg: Config, st: NodeState, p: Name)
    requires cfg.Faithful() && st.Present?
    ensures NicsOf(cfg, st, p, []) == map[]
  {
    hide NicImage, TextsOf;
  }

  lemma PodsOfNone(cfg: Config, st: NodeState)
    requires cfg.Faithful() && st.Present?
    ensures PodsOf(cfg, st, []) == map[]
  {
    hide PodImage, TextsOf;
  }

  lemma PodsOfStep(cfg: Config, st: NodeState, names: seq<Name>, j: nat)
    requires cfg.Faithful() && st.Present? && j < |names|
    ensures PodsOf(cfg, st, names[..j + 1]) == PodsOf(cfg, st, names[..j])[names[j] := PodImage(cfg, st, names[j])]
  {
    hide PodImage, TextsOf;
    assert names[..j + 1] == names[..j] + [names[j]];
  }

  ghost function NodeImage(cfg: Config, st: NodeState): NodeObj
    requires cfg.Faithful() && st.Present?
  {
    NodeObj(cfg.cidr, PodsOf(cfg, st, [HOST] + st.order))
  }

  ghost function ClusterImage(cfg: Config, st: NodeState): Option<NodeObj>
    requires cfg.Faithful()
  {
    if st.Absent? then None else Some(NodeImage(cfg, st))
  }

  /** A stored host text reads back as the host. */
  lemma HostReadsBack(cfg: Config, host: nat)
    requires cfg.Faithful() && host >= 1
    ensures ParseAddr(cfg.texts.host(host)) == Some(HostCidr(cfg, host))
    ensures Token(cfg.texts.host(host)) && cfg.texts.host(host) == RenderCidr(HostCidr(cfg, host))
  {
    RenderedReadsBack(HostCidr(cfg, host));
    HostTextIsToken(cfg.cidr, host);
  }

  lemma VxlanReadsBack(cfg: Config)
    requires cfg.Faithful()
    ensures ParseAddr(cfg.texts.vxlan) == Some(Cidr(cfg.cidr.addr, MAX_PREFIX)) && cfg.texts.vxlan != ""
  {
    RenderedReadsBack(Cidr(cfg.cidr.addr, MAX_PREFIX));
    CidrTextIsToken(Cidr(cfg.cidr.addr, MAX_PREFIX));
  }

  /** A stored default route decodes, because neither its gateway nor its device has a dash. */
  lemma RouteReadsBack(cfg: Config, gateway: nat, nic: Name)
    requires cfg.Faithful() && SEPARATOR !in nic
    ensures DecodeRoute(cfg.texts.route(gateway, nic)) ==
      Some(Route("", RenderQuad(HostAddress(cfg.cidr, gateway)), nic))
    ensures Token(cfg.texts.route(gateway, nic))
  {
    QuadHasNoSlash(HostAddress(cfg.cidr, gateway));
    DefaultRoute(RenderQuad(HostAddress(cfg.cidr, gateway)), nic);
  }

  lemma DefaultRoute(via: string, nic: Name)
    requires via != "" && forall c <- via :: IsDigit(c) || c == '.'
    ensures var r := Route("", via, nic);
            Token(RouteValue(r)) && (DecodeRoute(RouteValue(r)) == Some(r) <==> SEPARATOR !in nic)
  {
    hide Tokens;
    RouteValueExact(Route("", via, nic));
  }

  /** A pod's default route can be read back exactly when the device's name has no dash; the code
      checks neither. */
  lemma DashedDeviceExact(cfg: Config, gateway: nat, nic: Name)
    requires cfg.Faithful()
    ensures var r := Route("", RenderQuad(HostAddress(cfg.cidr, gateway)), nic);
            DecodeRoute(cfg.texts.route(gateway, nic)) == Some(r) <==> SEPARATOR !in nic
  {
    hide DecodeRoute, RouteValue, RenderQuad, HostAddress;
    QuadHasNoSlash(HostAddress(cfg.cidr, gateway));
    DefaultRoute(RenderQuad(HostAddress(cfg.cidr, gateway)), nic);
  }

  /** `addrs` is what the address texts `xs` parse to. */
  ghost predicate AddrsRead(xs: seq<string>, addrs: seq<Cidr>) {
    |addrs| == |xs| && forall j | 0 <= j < |xs| :: ParseAddr(xs[j]) == Some(addrs[j])
  }

  ghost predicate RoutesRead(xs: seq<string>, routes: seq<Route>) {
    |routes| == |xs| && forall j | 0 <= j < |xs| :: DecodeRoute(xs[j]) == Some(routes[j])
  }

  lemma ReadsAgree(xs: seq<string>, a: seq<Cidr>, b: seq<Cidr>)
    requires AddrsRead(xs, a) && AddrsRead(xs, b)
    ensures a == b
  {
    forall j | 0 <= j < |xs| ensures a[j] == b[j] { assert Some(a[j]) == Some(b[j]); }
  }

  lemma RoutesAgree(xs: seq<string>, a: seq<Route>, b: seq<Route>)
    requires RoutesRead(xs, a) && RoutesRead(xs, b)
    ensures a == b
  {
    forall j | 0 <= j < |xs| ensures a[j] == b[j] { assert Some(a[j]) == Some(b[j]); }
  }

  lemma ReadOne(text: string, c: Cidr)
    requires ParseAddr(text) == Some(c)
    ensures AddrsRead([text], [c])
  {
  }

  lemma RouteReadOne(text: string, r: Route)
    requires DecodeRoute(text) == Some(r)
    ensures RoutesRead([text], [r])
  {
  }

  /** What the store holds for a device reads back as the device. */
  lemma NicReadsBack(cfg: Config, st: NodeState, p: Name, i: Name)
    requires cfg.Faithful() && ValidState(cfg, st) && st.Present? && Listed(st)
    ensures AddrsRead(Image(cfg, st, Addrs(cfg.node, p, i)), NicImage(cfg, st, p, i).addrs)
    ensures RoutesRead(Image(cfg, st, Routes(cfg.node, p, i)), NicImage(cfg, st, p, i).routes)
  {
    if p == HOST { HostNicReadsBack(cfg, st, i); } else { PodNicReadsBack(cfg, st, p, i); }
  }

  lemma HostNicReadsBack(cfg: Config, st: NodeState, i: Name)
    requires cfg.Faithful() && ValidState(cfg, st) && st.Present? && Listed(st)
    ensures AddrsRead(Image(cfg, st, Addrs(cfg.node, HOST, i)), NicImage(cfg, st, HOST, i).addrs)
    ensures RoutesRead(Image(cfg, st, Routes(cfg.node, HOST, i)), NicImage(cfg, st, HOST, i).routes)
  {
    hide ParseAddr, DecodeRoute, RenderCidr, RenderQuad, HostAddress, TextsOf;
    HostReadsBack(cfg, st.gateway);
    ReadOne(cfg.texts.host(st.gateway), HostCidr(cfg, st.gateway));
    VxlanReadsBack(cfg);
    ReadOne(cfg.texts.vxlan, Cidr(cfg.cidr.addr, MAX_PREFIX));
    assert HOST in st.pods ==> ValidPod(cfg, st, HOST);
  }

  lemma PodNicReadsBack(cfg: Config, st: NodeState, p: Name, i: Name)
    requires cfg.Faithful() && ValidState(cfg, st) && st.Present? && Listed(st) && p != HOST
    ensures AddrsRead(Image(cfg, st, Addrs(cfg.node, p, i)), NicImage(cfg, st, p, i).addrs)
    ensures RoutesRead(Image(cfg, st, Routes(cfg.node, p, i)), NicImage(cfg, st, p, i).routes)
  {
    hide ParseAddr, DecodeRoute, RenderCidr, RenderQuad, HostAddress, TextsOf;
    if p in st.pods && st.pods[p].nic == i {
      var host := st.pods[p].host;
      assert ValidPod(cfg, st, p);
      HostReadsBack(cfg, host);
      ReadOne(cfg.texts.host(host), HostCidr(cfg, host));
      RouteReadsBack(cfg, st.gateway, i);
      RouteReadOne(cfg.texts.route(st.gateway, i), Route("", RenderQuad(HostAddress(cfg.cidr, st.gateway)), i));
    }
  }

  lemma BridgeReadsBack(cfg: Config, st: NodeState, p: Name, i: Name)
    requires cfg.Faithful() && ValidState(cfg, st) && st.Present? && Listed(st)
    ensures NicImage(cfg, st, p, i).name == i
    ensures var texts := Image(cfg, st, Addrs(cfg.node, p, i));
            p == HOST && i == cfg.bridge ==> texts != [] && ParseAddr(texts[0]) == Some(HostCidr(cfg, st.gateway))
  {
    hide ParseAddr, HostAddress, TextsOf, RenderCidr, RenderQuad;
    HostReadsBack(cfg, st.gateway);
  }

  lemma NicsAreNames(cfg: Config, st: NodeState, p: Name, v: View)
    requires st.Present? && Listed(st) && Matches(v, cfg, st)
    ensures Nics(cfg.node, p) in v && v[Nics(cfg.node, p)] == NicNames(cfg, st, p)
  {
    assert Nics(cfg.node, p).Of(cfg.node);
  }

  lemma PodsAreNames(cfg: Config, st: NodeState, v: View)
    requires st.Present? && Listed(st) && Matches(v, cfg, st)
    ensures Pods(cfg.node) in v && v[Pods(cfg.node)] == [HOST] + st.order
  {
    assert Pods(cfg.node).Of(cfg.node);
  }

  lemma NamesDiffer(cfg: Config, st: NodeState, p: Name)
    requires cfg.Valid() && st.Present?
    ensures Distinct(NicNames(cfg, st, p))
    ensures p == HOST || p in st.pods ==> NicNames(cfg, st, p) != []
    ensures p == HOST ==> NicNames(cfg, st, p)[0] == cfg.bridge
  {
  }

  lemma NetnsRecorded(cfg: Config, st: NodeState, p: Name, v: View)
    requires cfg.Valid() && ValidState(cfg, st) && st.Present? && p in st.pods && Listed(st) && Matches(v, cfg, st)
    ensures NetnsOf(cfg.node, p) in v && Join(v[NetnsOf(cfg.node, p)], COMMA) != ""
  {
    assert NetnsOf(cfg.node, p).Of(cfg.node);
    assert ValidPod(cfg, st, p);
  }

  lemma SubnetText(cfg: Config)
    requires cfg.Faithful()
    ensures cfg.texts.subnet == RenderCidr(cfg.cidr) && Token(cfg.texts.subnet)
    ensures ParseNetwork(cfg.texts.subnet) == Some(cfg.cidr)
  {
    hide ParseNetwork, RenderCidr;
    RenderedReadsBack(cfg.cidr);
    CidrTextIsToken(cfg.cidr);
  }

  lemma SubnetReadsBack(cfg: Config, st: NodeState, kv: map<string, string>)
    requires cfg.Faithful() && Stored(kv) && Listed(st) && Matches(ViewOf(kv), cfg, st)
    ensures Read(kv, KeyText(NodeSubnet(cfg.node))) == if st.Present? then cfg.texts.subnet else ""
    ensures cfg.texts.subnet == RenderCidr(cfg.cidr) && Token(cfg.texts.subnet)
    ensures ParseNetwork(cfg.texts.subnet) == Some(cfg.cidr)
  {
    hide ParseAddr, ParseNetwork, RenderCidr, KeyText, ListAt, Read;
    assert NodeSubnet(cfg.node).Of(cfg.node);
    ReadEntry(kv, NodeSubnet(cfg.node));
    SubnetText(cfg);
  }

  lemma NetworkStored(cfg: Config, kv: map<string, string>)
    requires cfg.Faithful() && Stored(kv) && NodeSubnet(cfg.node) in ViewOf(kv)
    requires ViewOf(kv)[NodeSubnet(cfg.node)] == [cfg.texts.subnet]
    ensures NetworkOf(kv, cfg.node) == Some(cfg.cidr)
  {
    hide ParseNetwork, RenderCidr, KeyText, ListAt, Read;
    ReadEntry(kv, NodeSubnet(cfg.node));
    RenderedReadsBack(cfg.cidr);
  }

  /** The index behind an allocated address. */
  lemma FoundHost(cfg: Config, ip: string, used: seq<string>, first: bool) returns (host: nat)
    requires cfg.Faithful() && HostOf(Some(cfg.cidr), ip) && (first ==> Allocated(ip) == FirstFit(cfg.cidr, used))
    ensures 1 <= host <= cfg.hosts && ip == cfg.texts.host(host)
    ensures first ==> FirstFree(cfg.cidr, used, 1) == Some(host)
  {
    hide GenerateIp;
    host :| 1 <= host <= HostCount(cfg.cidr) && ip == GenerateIp(cfg.cidr, host);
    if first { host := FirstFree(cfg.cidr, used, 1).value; }
  }

  lemma VxlanTexts(cfg: Config)
    requires cfg.Faithful()
    ensures ParseAddr(ExtractAddr(cfg.cidr)) == Some(Cidr(cfg.cidr.addr, MAX_PREFIX))
    ensures RenderCidr(Cidr(cfg.cidr.addr, MAX_PREFIX)) == cfg.texts.vxlan && Token(cfg.texts.vxlan)
    ensures VtepValue(ExtractAddr(cfg.cidr), cfg.mac) == cfg.texts.vtep && Token(cfg.texts.vtep)
  {
    hide ParseAddr, RenderCidr, RenderQuad, ExtractAddr;
    ExtractedAddr(cfg.cidr);
    BareReadsBack(cfg.cidr.addr);
    QuadHasNoSlash(cfg.cidr.addr);
    CidrTextIsToken(Cidr(cfg.cidr.addr, MAX_PREFIX));
  }

  /** The namespaces recorded for a node's pods, both ways, are the same. */
  ghost predicate NamespacesKept(v: View, w: View, node: Name)
    requires Total(v) && Total(w)
  {
    forall p: Name :: w[NetnsOf(node, p)] == v[NetnsOf(node, p)] && w[PodIn(node, p)] == v[PodIn(node, p)]
  }

  lemma SameNamespacesKept(v: View, node: Name)
    requires Total(v)
    ensures NamespacesKept(v, v, node)
  {
  }

  /** The entries a device's removal writes. */
  predicate OfDevice(k: Key, node: Name) {
    k.Of(node) && (k.Addresses? || k.Addrs? || k.Routes? || k.Nics? || k.Vtep?)
  }

  lemma DeviceStep(a: map<string, string>, b: map<string, string>, c: map<string, string>, k: Key, xs: seq<string>,
                   node: Name)
    requires Total(ViewOf(a)) && Total(ViewOf(b)) && Total(ViewOf(c))
    requires Kept(a, b, node) && NamespacesKept(ViewOf(a), ViewOf(b), node) && Changed(b, c, k, xs) && OfDevice(k, node)
    ensures Kept(a, c, node) && NamespacesKept(ViewOf(a), ViewOf(c), node)
  {
    hide ViewOf, Stored, Foreign, OthersKept;
    ChangedKept(b, c, k, xs, node);
    KeptTrans(a, b, c, node);
  }

  /** The records of the root namespace are the same. */
  ghost predicate RootKept(v: View, w: View, node: Name)
    requires Total(v) && Total(w)
  {
    w[NetnsOf(node, HOST)] == v[NetnsOf(node, HOST)] && w[PodIn(node, HOST)] == v[PodIn(node, HOST)]
  }

  lemma {:induction false} SubnetReleasedKept(before: map<string, string>, after: map<string, string>, node: Name,
                                              subnet: string)
    requires Stored(before) && Stored(after) && Foreign(after) == Foreign(before)
    requires Subnets in ViewOf(before)
    requires
      || ViewOf(after) == ViewOf(before)[NodeSubnet(node) := []][Subnets := Without(ViewOf(before)[Subnets], subnet)]
      || ViewOf(after) == ViewOf(before)[NodeSubnet(node) := []]
      || after == before
    ensures Kept(before, after, node)
  {
    hide ViewOf, Stored, Foreign, KeyText, Without;
    ViewTotal(before);
  }

  lemma {:induction false} PodRemovedKept(before: map<string, string>, after: map<string, string>, node: Name,
                                          netns: Name, pod: Name)
    requires Stored(before) && Stored(after) && Foreign(after) == Foreign(before)
    requires Pods(node) in ViewOf(before)
    requires
      || ViewOf(after) ==
        ViewOf(before)[PodIn(node, netns) := []][Pods(node) := Without(ViewOf(before)[Pods(node)], pod)]
      || ViewOf(after) == ViewOf(before)[PodIn(node, netns) := []]
      || after == before
    ensures Kept(before, after, node)
  {
    hide ViewOf, Stored, Foreign, KeyText, Without;
    ViewTotal(before);
  }

  /** Both writes of `addPod`, or the first alone, keep other nodes' entries. */
  lemma PodAddedKept(before: map<string, string>, after: map<string, string>, node: Name, netns: Name, pod: Name)
    requires Stored(before) && Stored(after) && Foreign(after) == Foreign(before)
    requires Pods(node) in ViewOf(before)
    requires
      || ViewOf(after) == ViewOf(before)[PodIn(node, netns) := [pod]][Pods(node) := ViewOf(before)[Pods(node)] + [pod]]
      || ViewOf(after) == ViewOf(before)[PodIn(node, netns) := [pod]]
      || after == before
    ensures Kept(before, after, node)
  {
    hide ViewOf, Stored, Foreign, KeyText;
    ViewTotal(before);
  }

  lemma RegisteredKept(before: map<string, string>, after: map<string, string>, node: Name, subnet: string, ok: bool)
    requires Registered(before, after, node, subnet, true, ok)
    ensures Kept(before, after, node)
  {
    hide ViewOf, Stored, Foreign, KeyText;
    ViewTotal(before);
  }

  /** On an empty list the first host is free. */
  lemma FirstOfNone(cfg: Config)
    requires cfg.Faithful()
    ensures FirstFree(cfg.cidr, [], 1) == Some(1)
  {
    hide GenerateIp;
    Pow2Grows(1, MAX_PREFIX - cfg.cidr.prefix);
  }

  /** The root namespace built for a new node is the image of the new state's. */
  lemma HostImage(cfg: Config, gw: nat, nics: map<Name, NicObj>)
    requires cfg.Faithful() && gw >= 1
    requires nics == (if cfg.mode.Vxlan? then
      map[cfg.bridge := NicObj(cfg.bridge, [HostCidr(cfg, gw)], []),
          NAME_VXLAN := NicObj(NAME_VXLAN, [Cidr(cfg.cidr.addr, MAX_PREFIX)], []),
          cfg.underlay := NicObj(cfg.underlay, [], [])]
    else
      map[cfg.bridge := NicObj(cfg.bridge, [HostCidr(cfg, gw)], []), cfg.underlay := NicObj(cfg.underlay, [], [])])
    ensures PodImage(cfg, Created(gw), HOST) == PodObj(HOST, nics)
  {
    hide HostAddress, TextsOf, NodeNetwork, Token;
    var st := Created(gw);
    if cfg.mode.Vxlan? {
      NicsOfTwo(cfg, st, cfg.bridge, NAME_VXLAN);
      assert HostNics(cfg) == [cfg.bridge, NAME_VXLAN] + [cfg.underlay];
      NicsOfOneMore(cfg, st, [cfg.bridge, NAME_VXLAN], cfg.underlay);
    } else {
      NicsOfTwo(cfg, st, cfg.bridge, cfg.underlay);
    }
  }

  lemma NicsOfOneMore(cfg: Config, st: NodeState, names: seq<Name>, i: Name)
    requires cfg.Faithful() && st.Present?
    ensures NicsOf(cfg, st, HOST, names + [i]) == NicsOf(cfg, st, HOST, names)[i := NicImage(cfg, st, HOST, i)]
  {
    hide NicImage, TextsOf, NodeNetwork, Token;
  }

  lemma NicsOfTwo(cfg: Config, st: NodeState, i: Name, j: Name)
    requires cfg.Faithful() && st.Present? && i != j
    ensures NicsOf(cfg, st, HOST, [i, j]) == map[i := NicImage(cfg, st, HOST, i), j := NicImage(cfg, st, HOST, j)]
  {
    hide NicImage, TextsOf, NodeNetwork, Token;
  }

  lemma CreatedImage(cfg: Config, gw: nat, pods: map<Name, PodObj>)
    requires cfg.Faithful() && gw >= 1 && pods == map[HOST := PodImage(cfg, Created(gw), HOST)]
    ensures NodeImage(cfg, Created(gw)) == NodeObj(cfg.cidr, pods)
  {
    hide HostAddress, TextsOf, PodImage;
    assert [HOST] + Created(gw).order == [HOST];
    assert PodsOf(cfg, Created(gw), [HOST]) == pods;
  }

  /** `addNic` on a pod of the cluster object, which is made if there is none. */
  function WithDevice(node: NodeObj, cid: Name, nic: NicObj): NodeObj {
    var nics := if cid in node.pods then node.pods[cid].nics else map[];
    node.(pods := node.pods[cid := PodObj(cid, nics[nic.name := nic])])
  }

  /** Adding a pod to the cluster object gives the image of the state with the pod. */
  lemma WithPodImage(cfg: Config, st: NodeState, cid: Name, pod: Pod)
    requires cfg.Faithful() && st.Present? && cid !in st.pods && cid !in st.order && cid != HOST && IsNetns(pod.netns)
    ensures NodeImage(cfg, WithPod(st, cid, pod)) ==
            WithDevice(NodeImage(cfg, st), cid, PodNic(cfg, pod.nic, pod.host, st.gateway))
  {
    hide HostAddress, TextsOf, RenderQuad, PodImage, PodsOf, NodeNetwork, IsNetns;
    var next := WithPod(st, cid, pod);
    var names := [HOST] + st.order;
    assert cid !in NodeImage(cfg, st).pods by { PodsOfKeys(cfg, st, names); }
    assert [HOST] + next.order == names + [cid];
    PodsOfStep(cfg, next, names + [cid], |names|);
    assert (names + [cid])[..|names|] == names && (names + [cid])[..|names| + 1] == names + [cid];
    OtherPodsSame(cfg, st, cid, pod, names);
    NewPodImage(cfg, next, cid);
  }

  lemma PodsOfKeys(cfg: Config, st: NodeState, names: seq<Name>)
    requires cfg.Faithful() && st.Present?
    ensures forall p: Name :: p in PodsOf(cfg, st, names) <==> p in names
  {
    hide PodImage, TextsOf;
  }

  lemma OtherPodsSame(cfg: Config, st: NodeState, cid: Name, pod: Pod, names: seq<Name>)
    requires cfg.Faithful() && st.Present? && cid !in names && cid != HOST && IsNetns(pod.netns)
    ensures PodsOf(cfg, WithPod(st, cid, pod), names) == PodsOf(cfg, st, names)
  {
    hide PodImage, PodsOf, TextsOf;
    forall p <- names
      ensures PodImage(cfg, WithPod(st, cid, pod), p) == PodImage(cfg, st, p)
    {
      PodImageKept(cfg, st, WithPod(st, cid, pod), p);
    }
    SamePods(cfg, st, WithPod(st, cid, pod), names);
  }

  lemma SamePods(cfg: Config, st: NodeState, next: NodeState, names: seq<Name>)
    requires cfg.Faithful() && st.Present? && next.Present?
    requires forall p <- names :: PodImage(cfg, next, p) == PodImage(cfg, st, p)
    ensures PodsOf(cfg, next, names) == PodsOf(cfg, st, names)
  {
    hide PodImage, TextsOf;
  }

  lemma NewPodImage(cfg: Config, st: NodeState, cid: Name)
    requires cfg.Faithful() && Knows(st, cid) && cid != HOST
    ensures var nic := st.pods[cid].nic;
            PodImage(cfg, st, cid) == PodObj(cid, map[nic := PodNic(cfg, nic, st.pods[cid].host, st.gateway)])
  {
    hide HostAddress, TextsOf, RenderQuad;
    var nic := st.pods[cid].nic;
    assert NicsOf(cfg, st, cid, [nic]) == map[nic := PodNic(cfg, nic, st.pods[cid].host, st.gateway)];
  }

  lemma RouteText(cfg: Config, gateway: nat, nic: Name)
    requires cfg.Faithful()
    ensures var r := Route("", RenderQuad(HostAddress(cfg.cidr, gateway)), nic);
            RouteValue(r) == cfg.texts.route(gateway, nic) && Token(RouteValue(r))
  {
    hide RenderQuad, HostAddress;
    QuadHasNoSlash(HostAddress(cfg.cidr, gateway));
    DefaultRoute(RenderQuad(HostAddress(cfg.cidr, gateway)), nic);
  }

  /** For a container that is not known, a namespace is another's exactly when it is not free. */
  lemma UnknownNamespace(cfg: Config, st: NodeState, netns: string, cid: Name)
    requires cfg.Valid() && ValidState(cfg, st) && IsNetns(netns) && !Knows(st, cid)
    ensures NamespaceOfOther(st, netns, cid) <==> !NamespaceFree(st, netns)
  {
    hide IsNetns, ShortNetns;
  }

  /** The reverse index names another pod exactly when the namespace is another's. */
  lemma OwnerRead(cfg: Config, st: NodeState, v: View, netns: string, cid: Name)
    requires cfg.Valid() && ValidState(cfg, st) && st.Present? && Listed(st) && Matches(v, cfg, st) && IsNetns(netns)
    requires cid != HOST
    ensures PodIn(cfg.node, ShortNetns(netns)) in v
    ensures var owner := Join(v[PodIn(cfg.node, ShortNetns(netns))], COMMA);
            (owner != "" && owner != cid) <==> NamespaceOfOther(st, netns, cid)
  {
    assert PodIn(cfg.node, ShortNetns(netns)).Of(cfg.node);
  }

  lemma HostNotPod(cfg: Config, st: NodeState)
    requires cfg.Valid() && ValidState(cfg, st) && st.Present?
    ensures HOST !in st.pods && HOST !in st.order && Distinct([HOST] + st.order)
  {
    assert HOST in st.pods ==> ValidPod(cfg, st, HOST);
  }

  /** A container's records list it once more; the list stays free of duplicates exactly when the
      container was unknown. */
  lemma SecondDeviceExact(v: View, cfg: Config, st: NodeState, cid: Name, pod: Pod)
    requires cfg.Valid() && Total(v) && ValidState(cfg, st) && st.Present? && Listed(st) && Matches(v, cfg, st)
    requires IsNetns(pod.netns) && cid != HOST
    ensures Pods(cfg.node) in v && Distinct(v[Pods(cfg.node)])
    ensures Distinct(RecordView(v, cfg, cid, pod.netns, pod.nic)[Pods(cfg.node)]) <==> !Knows(st, cid)
    ensures Pods(cfg.node) in PodView(v, cfg, cid, pod, st.gateway)
    ensures PodView(v, cfg, cid, pod, st.gateway)[Pods(cfg.node)] ==
      RecordView(v, cfg, cid, pod.netns, pod.nic)[Pods(cfg.node)]
  {
    hide TextsOf, IsNetns, ShortNetns, ValidState, RecordView, NetworkView;
    HostNotPod(cfg, st);
    PodsAreNames(cfg, st, v);
    ListedNames(cfg, st);
    RecordAt(v, cfg, cid, pod.netns, pod.nic, Pods(cfg.node));
    PodAt(v, cfg, cid, pod, st.gateway, Pods(cfg.node));
    OnceMore([HOST] + st.order, cid);
  }

  lemma ListedNames(cfg: Config, st: NodeState)
    requires cfg.Valid() && ValidState(cfg, st) && st.Present?
    ensures forall p: Name :: p in st.order <==> Knows(st, p)
  {
  }

  lemma OnceMore(names: seq<string>, x: string)
    requires Distinct(names)
    ensures Distinct(names + [x]) <==> x !in names
  {
    if x in names {
      var i :| 0 <= i < |names| && names[i] == x;
      assert (names + [x])[i] == x && (names + [x])[|names|] == x;
    }
  }

  lemma RecordKeeps(v: View, cfg: Config, st: NodeState, cid: Name, netns: string, nic: Name)
    requires Total(v) && st.Present? && Listed(st) && Matches(v, cfg, st) && IsNetns(netns)
    ensures Total(RecordView(v, cfg, cid, netns, nic))
    ensures RecordView(v, cfg, cid, netns, nic)[NodeSubnet(cfg.node)] == [cfg.texts.subnet]
    ensures RecordView(v, cfg, cid, netns, nic)[Addresses(cfg.node)] == Image(cfg, st, Addresses(cfg.node))
  {
    assert NodeSubnet(cfg.node).Of(cfg.node) && Addresses(cfg.node).Of(cfg.node);
  }

  /** An address that is not listed belongs to no pod and is not the gateway. */
  lemma FreshHost(cfg: Config, st: NodeState, host: nat)
    requires cfg.Valid() && ValidState(cfg, st) && st.Present? && Listed(st) && 1 <= host <= cfg.hosts
    requires cfg.texts.host(host) !in Image(cfg, st, Addresses(cfg.node))
    ensures HostFree(cfg, st, host)
  {
    var used := Image(cfg, st, Addresses(cfg.node));
    assert used[0] == cfg.texts.host(st.gateway);
    forall p <- st.pods
      ensures st.pods[p].host != host
    {
      assert p in st.order;
      var i :| 0 <= i < |st.order| && st.order[i] == p;
      assert used[i + 1] == cfg.texts.host(st.pods[p].host);
    }
  }

  /** The pod's address with its prefix, and the gateway's without. */
  function Report(addr: Cidr, gateway: Cidr): CniResult
    requires addr.Valid() && gateway.Valid()
  {
    CniResult(RenderCidr(addr), RenderQuad(gateway.addr))
  }

  /** The report reads back as the address and the gateway it is made from. */
  lemma ReportReadsBack(addr: Cidr, gateway: Cidr)
    requires addr.Valid() && gateway.Valid()
    ensures ParseAddr(Report(addr, gateway).address) == Some(addr)
    ensures ParseQuad(Report(addr, gateway).gateway) == Some(gateway.addr)
  {
    hide ParseAddr, ParseQuad, RenderCidr, RenderQuad;
    RenderedReadsBack(addr);
    RenderedQuadParses(gateway.addr);
  }

  ghost function ResultFor(cfg: Config, host: nat, gateway: nat): CniResult
    requires cfg.Faithful()
  {
    CniResult(cfg.texts.host(host), RenderQuad(HostAddress(cfg.cidr, gateway)))
  }

  /** What ADD reports for a pod of the node. */
  ghost function ResultOf(cfg: Config, st: NodeState, cid: Name): CniResult
    requires cfg.Faithful() && Knows(st, cid)
  {
    ResultFor(cfg, st.pods[cid].host, st.gateway)
  }

  /** The state a pod is added to: the node's, or that of a new one. */
  ghost function BaseState(st: NodeState, gateway: nat): (r: NodeState)
    ensures r.Present?
  {
    if st.Absent? then Created(gateway) else st
  }

  ghost function BaseView(v: View, cfg: Config, st: NodeState, gateway: nat): (r: View)
    requires cfg.Valid() && Total(v) && gateway >= 1
    ensures Total(r)
  {
    if st.Absent? then
      CreateTotal(v, cfg, gateway);
      CreateView(v, cfg, gateway)
    else v
  }

  /** The least host whose address is not in `used` is taken; only when there is none is `r` a refusal. */
  ghost predicate FirstFitOr<T>(cfg: Config, used: seq<string>, host: nat, r: Result<T, CniError>)
    requires cfg.Faithful()
  {
    var free := FirstFree(cfg.cidr, used, 1);
    if free.Some? then r.Ok? && host == free.value else r == Err(NoAddress)
  }

  /** What a successful ADD of a device that is not known leaves and reports. */
  ghost predicate DeviceGiven(v: View, w: View, cfg: Config, st: NodeState, cid: Name, netns: string, nic: Name,
                              host: nat, gw: nat, r: CniResult)
    requires cfg.Faithful() && Total(v) && IsNetns(netns) && gw >= 1
  {
    && HostFree(cfg, BaseState(st, gw), host) && r == ResultFor(cfg, host, gw)
    && w == PodView(BaseView(v, cfg, st, gw), cfg, cid, Pod(netns, nic, host), gw)
  }

  /** Why such an ADD is refused, and what it leaves: nothing of the pod when its namespace is another
      pod's, and its records when no address is free. */
  ghost predicate DeviceRefused(v: View, w: View, cfg: Config, st: NodeState, cid: Name, netns: string, nic: Name,
                                gw: nat, r: Result<CniResult, CniError>)
    requires cfg.Faithful() && Total(v) && IsNetns(netns) && gw >= 1
  {
    && (r == Err(NamespaceInUse) <==> NamespaceOfOther(st, netns, cid))
    && (r == Err(NamespaceInUse) ==> w == BaseView(v, cfg, st, gw))
    && (r == Err(NoAddress) ==> w == RecordView(BaseView(v, cfg, st, gw), cfg, cid, netns, nic))
  }

  lemma CreateTotal(v: View, cfg: Config, gateway: nat)
    requires cfg.Valid() && Total(v) && gateway >= 1
    ensures Total(CreateView(v, cfg, gateway))
  {
    hide CreateView;
    forall k: Key ensures k in CreateView(v, cfg, gateway) { CreateAt(v, cfg, gateway, k); }
  }

  /** The writes of an unknown container's first device are a step of the node. */
  lemma PodAdded(before: map<string, string>, after: map<string, string>, cfg: Config, st: NodeState,
                 cid: Name, netns: string, nic: Name, host: nat) returns (next: NodeState)
    requires cfg.Faithful() && IsNetns(netns) && StoreFor(before, cfg, st) && st.Present? && Total(ViewOf(before))
    requires !Knows(st, cid) && cid != HOST && SEPARATOR !in nic
    requires !NamespaceOfOther(st, netns, cid) && HostFree(cfg, st, host)
    requires Stored(after) && ViewOf(after) == PodView(ViewOf(before), cfg, cid, Pod(netns, nic, host), st.gateway)
    ensures NewPod(cfg, st, cid, netns, nic, next) && StoreFor(after, cfg, next) && next.pods[cid].host == host
    ensures Subnets in ViewOf(before) && Subnets in ViewOf(after) && ViewOf(after)[Subnets] == ViewOf(before)[Subnets]
    ensures ResultOf(cfg, next, cid) == ResultFor(cfg, host, st.gateway)
    ensures NodeImage(cfg, next) == WithDevice(NodeImage(cfg, st), cid, PodNic(cfg, nic, host, st.gateway))
  {
    hide ViewOf, Stored, TextsOf, HostAddress, RenderQuad, PodView, Image, ValidState, Matches, NamespaceFree,
         NamespaceOfOther, NodeImage, WithDevice, PodNic;
    var pod := Pod(netns, nic, host);
    UnknownNamespace(cfg, st, netns, cid);
    ListedNames(cfg, st);
    PodMatches(ViewOf(before), cfg, st, cid, pod);
    next := WithPod(st, cid, pod);
    ValidListed(cfg, next);
    ViewTotal(after);
    WithPodImage(cfg, st, cid, pod);
  }

  lemma ValidListed(cfg: Config, st: NodeState)
    requires cfg.Valid() && ValidState(cfg, st)
    ensures Listed(st) && (st.Present? ==> 1 <= st.gateway <= cfg.hosts && forall p <- st.order :: p in st.pods)
  {
  }

  /** `next` has one more pod, on a free address. */
  ghost predicate NewPod(cfg: Config, st: NodeState, cid: Name, netns: string, nic: Name, next: NodeState)
    requires cfg.Valid() && st.Present? && IsNetns(netns)
  {
    && Knows(next, cid) && NamespaceFree(st, netns)
    && var pod := next.pods[cid];
       HostFree(cfg, st, pod.host) && pod == Pod(netns, nic, pod.host) && next == WithPod(st, cid, pod)
  }

  /** Taking a pod out of the cluster object gives the image of the state without it. */
  lemma WithoutPodImage(cfg: Config, st: NodeState, cid: Name)
    requires cfg.Faithful() && ValidState(cfg, st) && Knows(st, cid) && ValidPod(cfg, st, cid)
    ensures WithoutPod(st, cid).Present?
    ensures NodeImage(cfg, WithoutPod(st, cid)) == NodeImage(cfg, st).(pods := NodeImage(cfg, st).pods - {cid})
    ensures |NodeImage(cfg, st).pods - {cid}| == 1 <==> WithoutPod(st, cid).order == []
  {
    hide HostAddress, TextsOf, RenderQuad, PodImage;
    var next := WithoutPod(st, cid);
    WithoutNameProps(st.order, cid);
    forall p <- [HOST] + next.order
      ensures PodImage(cfg, next, p) == PodImage(cfg, st, p)
    {
      PodImageKept(cfg, st, next, p);
    }
    SubPods(cfg, st, next, [HOST] + st.order, [HOST] + next.order, cid);
    OnlyHost(cfg, next);
  }

  lemma OnlyHost(cfg: Config, st: NodeState)
    requires cfg.Faithful() && st.Present? && HOST !in st.order
    ensures |PodsOf(cfg, st, [HOST] + st.order)| == 1 <==> st.order == []
  {
    hide PodImage, TextsOf;
    var all := PodsOf(cfg, st, [HOST] + st.order);
    OnlyKey(all, HOST);
    if st.order != [] { assert st.order[0] in all.Keys; }
  }

  lemma SubPods(cfg: Config, st: NodeState, next: NodeState, names: seq<Name>, fewer: seq<Name>, cid: Name)
    requires cfg.Faithful() && st.Present? && next.Present?
    requires forall p: Name :: p in fewer <==> p in names && p != cid
    requires forall p <- fewer :: PodImage(cfg, next, p) == PodImage(cfg, st, p)
    ensures PodsOf(cfg, next, fewer) == PodsOf(cfg, st, names) - {cid}
  {
    hide PodImage, TextsOf;
  }

  lemma PodImageKept(cfg: Config, st: NodeState, next: NodeState, p: Name)
    requires cfg.Faithful() && st.Present? && next.Present? && st.gateway == next.gateway
    requires
      || p == HOST
      || ((p in st.pods <==> p in next.pods) && (p in st.pods && p in next.pods ==> st.pods[p] == next.pods[p]))
    ensures PodImage(cfg, next, p) == PodImage(cfg, st, p)
  {
    hide HostAddress, TextsOf, RenderQuad;
    var names := NicNames(cfg, st, p);
    assert names == NicNames(cfg, next, p);
    assert NicsOf(cfg, next, p, names) == NicsOf(cfg, st, p, names);
  }

  lemma OnlyKey<T>(m: map<Name, T>, k: Name)
    requires k in m
    ensures |m| == 1 <==> m.Keys == {k}
  {
    assert |m| == |m.Keys|;
    if m.Keys != {k} {
      assert {k} < m.Keys;
      SubsetSmaller({k}, m.Keys);
    }
  }

  lemma SubsetSmaller<T>(a: set<T>, b: set<T>)
    requires a < b
    ensures |a| < |b|
  {
    var x :| x in b && x !in a;
    assert b == (b - a) + a && x in b - a;
    assert |b| == |b - a| + |a|;
  }

  lemma HostRecorded(cfg: Config, st: NodeState, v: View)
    requires st.Present? && Listed(st) && Matches(v, cfg, st)
    ensures NetnsOf(cfg.node, HOST) in v && v[NetnsOf(cfg.node, HOST)] == [HOST]
    ensures PodIn(cfg.node, HOST) in v && v[PodIn(cfg.node, HOST)] == [HOST]
  {
    assert NetnsOf(cfg.node, HOST).Of(cfg.node) && PodIn(cfg.node, HOST).Of(cfg.node);
  }

  lemma KnownPod(cfg: Config, st: NodeState, cid: Name, v: View)
    requires cfg.Valid() && ValidState(cfg, st) && Knows(st, cid) && Listed(st) && Matches(v, cfg, st)
    ensures ValidPod(cfg, st, cid) && st.pods[cid].host >= 1
    ensures NetnsOf(cfg.node, cid) in v && v[NetnsOf(cfg.node, cid)] == [st.pods[cid].netns]
    ensures PodIn(cfg.node, ShortNetns(st.pods[cid].netns)) in v
    ensures v[PodIn(cfg.node, ShortNetns(st.pods[cid].netns))] == [cid]
  {
    assert ValidPod(cfg, st, cid);
    assert NetnsOf(cfg.node, cid).Of(cfg.node) && PodIn(cfg.node, ShortNetns(st.pods[cid].netns)).Of(cfg.node);
  }

  /** The devices of a pod and the address text each gives back. */
  lemma PodDevice(cfg: Config, st: NodeState, cid: Name)
    requires cfg.Faithful() && ValidState(cfg, st) && Knows(st, cid) && ValidPod(cfg, st, cid)
    ensures var nic := PodNic(cfg, st.pods[cid].nic, st.pods[cid].host, st.gateway);
            ValidNic(nic) && AddressOf(nic) == cfg.texts.host(st.pods[cid].host) != ""
  {
    hide HostAddress, TextsOf, RenderQuad, RenderCidr;
    HostReadsBack(cfg, st.pods[cid].host);
  }

  lemma HostDevices(cfg: Config, st: NodeState)
    requires cfg.Faithful() && ValidState(cfg, st) && st.Present?
    ensures var nics := PodImage(cfg, st, HOST).nics;
            && (forall i <- nics :: ValidNic(nics[i]))
            && cfg.bridge in nics && AddressOf(nics[cfg.bridge]) == cfg.texts.host(st.gateway) != ""
            && (NAME_VXLAN in nics <==> cfg.mode.Vxlan?)
            && (cfg.mode.Vxlan? ==> AddressOf(nics[NAME_VXLAN]) == cfg.texts.vxlan != "")
            && cfg.underlay in nics && AddressOf(nics[cfg.underlay]) == ""
    ensures PodImage(cfg, st, HOST).name == HOST
  {
    hide HostAddress, TextsOf, RenderQuad, RenderCidr;
    HostReadsBack(cfg, st.gateway);
    VxlanTexts(cfg);
  }

  /** `getAddr` and `getAddrCidr`: the text of a device's first address, empty when it has none. */
  function AddressOf(nic: NicObj): string
    requires ValidNic(nic)
  {
    if nic.addrs == [] then "" else
      assert nic.addrs[0] in nic.addrs;
      RenderCidr(nic.addrs[0])
  }

  predicate ValidNic(nic: NicObj) {
    forall a <- nic.addrs :: a.Valid()
  }

  /** Every device gives its address back but the underlay. */
  predicate Releases(cfg: Config, pod: Name, nic: Name) {
    !(pod == HOST && nic == cfg.underlay)
  }

  ghost function Freed(v: View, cfg: Config, pod: Name, nic: Name, addr: string): View
    requires Total(v)
  {
    if Releases(cfg, pod, nic) then Minus(v, Addresses(cfg.node), addr) else v
  }

  ghost function NicGoneView(v: View, cfg: Config, pod: PodObj, nic: Name): View
    requires Total(v) && nic in pod.nics && ValidNic(pod.nics[nic])
  {
    DelNicView(v, cfg, pod.name, nic, AddressOf(pod.nics[nic]), Releases(cfg, pod.name, nic))
  }

  lemma CreatedUsed(cfg: Config)
    ensures Image(cfg, Created(1), Addresses(cfg.node)) == [cfg.texts.host(1)]
  {
  }

  /** A successful pod on a new node or an existing one is a successful ADD. */
  lemma NewPodAdded(cfg: Config, st: NodeState, base: NodeState, cid: Name, netns: string, nic: Name, next: NodeState)
    requires cfg.Valid() && base.Present? && IsNetns(netns) && !Knows(st, cid) && 1 <= base.gateway <= cfg.hosts
    requires base == if st.Absent? then Created(base.gateway) else st
    requires NewPod(cfg, base, cid, netns, nic, next)
    ensures Added(cfg, st, cid, netns, nic, next) && next.order != [] && next.gateway == base.gateway
    ensures NamespaceFree(base, netns) <==> NamespaceFree(st, netns)
  {
  }

  lemma AbsentValid(cfg: Config)
    requires cfg.Valid()
    ensures ValidState(cfg, Absent) && Listed(Absent)
  {
  }

  lemma RootInCluster(cfg: Config, st: NodeState)
    requires cfg.Faithful() && st.Present?
    ensures var node := NodeImage(cfg, st);
            node.subnet == cfg.cidr && HOST in node.pods && node.pods[HOST] == PodImage(cfg, st, HOST)
  {
    hide PodImage, TextsOf;
  }

  lemma KnownAdded(cfg: Config, st: NodeState, cid: Name, netns: string, nic: Name)
    requires cfg.Faithful() && ValidState(cfg, st) && IsNetns(netns) && Knows(st, cid)
    ensures Added(cfg, st, cid, netns, nic, st)
    ensures var a, g := HostCidr(cfg, st.pods[cid].host), HostCidr(cfg, st.gateway);
            ResultOf(cfg, st, cid) == CniResult(RenderQuad(a.addr) + "/" + Dec(a.prefix), RenderQuad(g.addr))
  {
    hide HostAddress, TextsOf, RenderQuad, Dec;
    assert ValidPod(cfg, st, cid);
    HostReadsBack(cfg, st.pods[cid].host);
  }

  lemma SameNamespaces(gw: nat, netns: string, cid: Name)
    requires IsNetns(netns)
    ensures NamespaceFree(Created(gw), netns) <==> NamespaceFree(Absent, netns)
    ensures NamespaceOfOther(Created(gw), netns, cid) <==> NamespaceOfOther(Absent, netns, cid)
  {
  }

  lemma KnownHasNetns(cfg: Config, st: NodeState, cid: Name)
    requires cfg.Valid() && ValidState(cfg, st)
    ensures Knows(st, cid) ==> ValidPod(cfg, st, cid) && IsNetns(st.pods[cid].netns)
  {
  }

  /** A known container has its one device in the cluster object, an unknown one has none. */
  lemma KnownInCluster(cfg: Config, st: NodeState, cid: Name)
    requires cfg.Faithful() && ValidState(cfg, st) && st.Present? && cid != HOST
    ensures var pods := NodeImage(cfg, st).pods;
            && (cid in pods <==> Knows(st, cid))
            && (Knows(st, cid) ==>
                var nic := st.pods[cid].nic;
                pods[cid] == PodObj(cid, map[nic := PodNic(cfg, nic, st.pods[cid].host, st.gateway)]))
  {
    hide HostAddress, TextsOf, RenderQuad;
    if Knows(st, cid) { NewPodImage(cfg, st, cid); }
  }

  // ---------------------------------------------------------------- what a DEL leaves

  /** A pod's removal, with or without its device. */
  ghost function RemovedView(v: View, cfg: Config, cid: Name, pod: Pod, nic: Name): View
    requires Total(v) && IsNetns(pod.netns)
  {
    if nic == pod.nic then PodGoneView(v, cfg, cid, pod) else DelPodView(v, cfg, cid, ShortNetns(pod.netns))
  }

  /** A DEL of a pod the node has: its removal, and the node's when it was the last. */
  ghost function GoneView(v: View, cfg: Config, st: NodeState, cid: Name, nic: Name): View
    requires Total(v) && Knows(st, cid) && IsNetns(st.pods[cid].netns)
  {
    var a := RemovedView(v, cfg, cid, st.pods[cid], nic);
    if WithoutPod(st, cid).order == [] then NodeGoneView(a, cfg, st.gateway) else a
  }

  lemma WithoutPodStays(cfg: Config, st: NodeState, cid: Name)
    requires cfg.Valid() && ValidState(cfg, st) && Knows(st, cid)
    ensures ValidPod(cfg, st, cid) && ValidState(cfg, WithoutPod(st, cid))
    ensures WithoutPod(st, cid).Present? && WithoutPod(st, cid).gateway == st.gateway
  {
    hide ValidState;
    WithoutPodValid(cfg, st, cid);
  }

  /** With the device the ADD named, a DEL is a step of the node. */
  lemma GoneIsStep(before: map<string, string>, after: map<string, string>, cfg: Config, st: NodeState, cid: Name)
    requires cfg.Faithful() && StoreFor(before, cfg, st) && Knows(st, cid)
    requires IsNetns(st.pods[cid].netns) && Total(ViewOf(before))
    requires Kept(before, after, cfg.node) && ViewOf(after) == GoneView(ViewOf(before), cfg, st, cid, st.pods[cid].nic)
    ensures ValidPod(cfg, st, cid) && DelStep(before, after, cfg, st, cid)
  {
    hide ViewOf, Stored, Foreign, KeyText, OthersKept, TextsOf, Image, ValidState, Matches, Listed, WithoutPod,
         PodGoneView, NodeGoneView, ValidPod;
    WithoutPodStays(cfg, st, cid);
    FaithfulTextsDiffer(cfg);
    PodGoneMatches(ViewOf(before), cfg, st, cid);
    var next := WithoutPod(st, cid);
    ValidListed(cfg, next);
    AbsentValid(cfg);
    var v := PodGoneView(ViewOf(before), cfg, cid, st.pods[cid]);
    assert Total(v) by { GoneTotal(ViewOf(before), cfg, cid, st.pods[cid]); }
    if next.order == [] { NodeGoneMatches(v, cfg, next); }
  }

  lemma GoneTotal(v: View, cfg: Config, cid: Name, pod: Pod)
    requires Total(v) && IsNetns(pod.netns)
    ensures Total(PodGoneView(v, cfg, cid, pod))
  {
    hide IsNetns, ShortNetns;
  }

  /** A DEL releases the pod's address exactly when it names the pod's device. */
  lemma AddressLeft(v: View, cfg: Config, st: NodeState, cid: Name, nic: Name)
    requires cfg.Faithful() && Total(v) && ValidState(cfg, st) && Knows(st, cid) && Listed(st) && Matches(v, cfg, st)
    requires IsNetns(st.pods[cid].netns)
    ensures Addresses(cfg.node) in GoneView(v, cfg, st, cid, nic)
    ensures cfg.texts.host(st.pods[cid].host) in GoneView(v, cfg, st, cid, nic)[Addresses(cfg.node)] <==>
      st.pods[cid].nic != nic
  {
    hide TextsOf, IsNetns, ShortNetns, Image, ValidState, Matches, Listed, WithoutPod, NodeGoneView, RemovedView,
         Without;
    var k, x := Addresses(cfg.node), cfg.texts.host(st.pods[cid].host);
    PodAddressListed(v, cfg, st, cid);
    PodTextApart(cfg, st, cid);
    RemovedAt(v, cfg, cid, st.pods[cid], nic, x);
    NodeGoneKeeps(RemovedView(v, cfg, cid, st.pods[cid], nic), cfg, st.gateway, x);
  }

  lemma PodAddressListed(v: View, cfg: Config, st: NodeState, cid: Name)
    requires cfg.Valid() && ValidState(cfg, st) && Knows(st, cid) && Listed(st) && Matches(v, cfg, st)
    ensures Addresses(cfg.node) in v && cfg.texts.host(st.pods[cid].host) in v[Addresses(cfg.node)]
  {
    assert Addresses(cfg.node).Of(cfg.node) && cid in st.order;
    var i :| 0 <= i < |st.order| && st.order[i] == cid;
    assert HostTexts(cfg, st.order, st.pods)[i] == cfg.texts.host(st.pods[cid].host);
  }

  /** A pod's address is not the gateway's and not the VXLAN device's. */
  lemma PodTextApart(cfg: Config, st: NodeState, cid: Name)
    requires cfg.Faithful() && ValidState(cfg, st) && Knows(st, cid)
    ensures cfg.texts.host(st.pods[cid].host) != cfg.texts.host(st.gateway)
    ensures cfg.texts.host(st.pods[cid].host) != cfg.texts.vxlan
  {
    hide RenderCidr, HostAddress, RenderQuad;
    assert ValidPod(cfg, st, cid);
    var host := st.pods[cid].host;
    if cfg.texts.host(host) == cfg.texts.host(st.gateway) { GenerateIpInjective(cfg.cidr, host, st.gateway); }
    if cfg.texts.host(host) == cfg.texts.vxlan {
      RenderCidrInjective(HostCidr(cfg, host), Cidr(cfg.cidr.addr, MAX_PREFIX));
    }
  }

  lemma {:induction false} WithoutHolds(xs: seq<string>, y: string, x: string)
    ensures x in Without(xs, y) <==> x in xs && x != y
  {
    if xs != [] { WithoutHolds(xs[1..], y, x); }
  }

  lemma RemovedAt(v: View, cfg: Config, cid: Name, pod: Pod, nic: Name, x: string)
    requires Total(v) && IsNetns(pod.netns)
    ensures Total(RemovedView(v, cfg, cid, pod, nic))
    ensures x in RemovedView(v, cfg, cid, pod, nic)[Addresses(cfg.node)] <==>
            x in v[Addresses(cfg.node)] && (nic == pod.nic ==> x != cfg.texts.host(pod.host))
  {
    hide IsNetns, ShortNetns, Without;
    var k := Addresses(cfg.node);
    if nic == pod.nic {
      PodGoneAt(v, cfg, cid, pod, k);
      WithoutHolds(v[k], cfg.texts.host(pod.host), x);
    } else {
      DelPodAt(v, cfg, cid, ShortNetns(pod.netns), k);
    }
  }

  lemma NodeGoneKeeps(v: View, cfg: Config, gateway: nat, x: string)
    requires Total(v) && x != cfg.texts.host(gateway) && x != cfg.texts.vxlan
    ensures Addresses(cfg.node) in NodeGoneView(v, cfg, gateway)
    ensures x in NodeGoneView(v, cfg, gateway)[Addresses(cfg.node)] <==> x in v[Addresses(cfg.node)]
  {
    hide Without;
    var k := Addresses(cfg.node);
    NodeGoneAt(v, cfg, gateway, k);
    var a := Without(v[k], cfg.texts.host(gateway));
    WithoutHolds(v[k], cfg.texts.host(gateway), x);
    WithoutHolds(a, cfg.texts.vxlan, x);
  }
}
