/** What holds over every run of CNI calls: conservation of addresses, the store's indexes, a stable
    gateway, no address given twice in the cluster, and the full teardown round trip. */
module Lifecycle {
  import opened Wrappers
  import opened Keys
  import opened Etcd
  import opened Ipv4
  import opened Subnet
  import opened Ipam
  import opened NodeModel
  import opened NodeStore
  import opened Steps
  import opened ClusterObject
  import opened Runs
  import opened Records
  import opened Storage

  // ---------------------------------------------------------------- addresses

  /** The address list of a node: the first host for the gateway, then one address per pod of
      `live`, the one its device has. */
  ghost predicate AddressesAccounted(v: View, cfg: Config, live: seq<Name>)
    requires Total(v)
  {
    var addrs := v[Addresses(cfg.node)];
    if live == [] then addrs == [] else
      && |addrs| == 1 + |live| && Distinct(addrs)
      && addrs[0] == cfg.texts.host(1)
      && v[Addrs(cfg.node, HOST, cfg.bridge)] == [addrs[0]]
      && forall i | 0 <= i < |live| :: HasAddress(v, cfg.node, live[i], addrs[i + 1])
  }

  ghost predicate HasAddress(v: View, node: Name, pod: Name, addr: string)
    requires Total(v)
  {
    exists nic: Name :: v[Nics(node, pod)] == [nic] && v[Addrs(node, pod, nic)] == [addr]
  }

  lemma AddressList(cfg: Config, v: View, st: NodeState)
    requires cfg.Valid() && Total(v) && Listed(st) && Matches(v, cfg, st)
    ensures v[Addresses(cfg.node)] ==
            if st.Absent? then [] else [cfg.texts.host(st.gateway)] + HostTexts(cfg, st.order, st.pods)
    ensures st.Present? ==> v[Addrs(cfg.node, HOST, cfg.bridge)] == [cfg.texts.host(st.gateway)]
  {
    assert Addresses(cfg.node).Of(cfg.node) && Addrs(cfg.node, HOST, cfg.bridge).Of(cfg.node);
  }

  lemma StateAccounted(cfg: Config, kv: map<string, string>, st: NodeState)
    requires cfg.Faithful() && StoreFor(kv, cfg, st) && Quiescent(cfg, st) && (st.Present? ==> st.gateway == 1)
    ensures Total(ViewOf(kv)) && AddressesAccounted(ViewOf(kv), cfg, Order(st))
  {
    hide ViewOf, Stored, TextsOf, HostTextsDiffer, ValidPod, ValidState, Matches, Distinct, HasAddress, NodeNetwork,
         HostCount, Token, HostTexts, Listed;
    var v := ViewOf(kv);
    ViewTotal(kv);
    AddressList(cfg, v, st);
    if st.Present? {
      ValidListed(cfg, st);
      FaithfulTextsDiffer(cfg);
      HostTextsDistinct(cfg, st);
      var hosts := HostTexts(cfg, st.order, st.pods);
      forall i | 0 <= i < |st.order|
        ensures HasAddress(v, cfg.node, st.order[i], ([cfg.texts.host(st.gateway)] + hosts)[i + 1])
      {
        assert st.order[i] in st.order && ([cfg.texts.host(st.gateway)] + hosts)[i + 1] == hosts[i];
        PodHasAddress(v, cfg, st, st.order[i]);
      }
    }
  }

  lemma PodHasAddress(v: View, cfg: Config, st: NodeState, p: Name)
    requires cfg.Valid() && Total(v) && ValidState(cfg, st) && Listed(st) && Matches(v, cfg, st) && Knows(st, p)
    ensures HasAddress(v, cfg.node, p, cfg.texts.host(st.pods[p].host))
  {
    hide TextsOf;
    assert ValidPod(cfg, st, p);
    var nic := st.pods[p].nic;
    assert Nics(cfg.node, p).Of(cfg.node) && Addrs(cfg.node, p, nic).Of(cfg.node);
  }

  /** Conservation: after any run, on every node that started empty, the address list has no
      duplicates and holds the gateway and exactly one address per live pod. */
  lemma {:induction false} Conservation(cfgs: Cluster, base: seq<string>, ws: seq<World>, cs: seq<Call>, n: Name)
    requires ValidCluster(cfgs) && Run(cfgs, ws, cs) && Inv(cfgs, base, ws[0]) && n in cfgs
    requires ws[0].nodes[n].Absent?
    ensures Total(ViewOf(ws[|cs|].kv)) && AddressesAccounted(ViewOf(ws[|cs|].kv), cfgs[n], Live(cs, n))
  {
    hide ViewOf, StoreFor, Quiescent, Listing, Step, Disjoint, AddressesAccounted, TextsOf;
    RunKeepsInv(cfgs, base, ws, cs, |cs|);
    LiveIsOrder(cfgs, base, ws, cs, n);
    StateAccounted(cfgs[n], ws[|cs|].kv, ws[|cs|].nodes[n]);
  }

  // ---------------------------------------------------------------- indexes

  /** The records of one pod point at each other, and nothing else points at it. */
  ghost predicate PodIndexed(v: View, node: Name, p: Name)
    requires Total(v)
  {
    exists s: string :: IsNetns(s) && v[NetnsOf(node, p)] == [s] && v[PodIn(node, ShortNetns(s))] == [p]
  }

  ghost predicate NamespaceIndexed(v: View, node: Name, t: Name)
    requires Total(v)
  {
    exists p: Name, s: string ::
      v[PodIn(node, t)] == [p] && p in v[Pods(node)] && v[NetnsOf(node, p)] == [s] && IsNetns(s) && ShortNetns(s) == t
  }

  /** The pod has one device, with one address and one route: the default route via `via`. */
  ghost predicate PodHasDevice(v: View, node: Name, p: Name, via: string)
    requires Total(v)
  {
    exists nic: Name :: v[Nics(node, p)] == [nic] && DeviceHas(v, node, p, nic, via)
  }

  ghost predicate DeviceHas(v: View, node: Name, p: Name, nic: Name, via: string)
    requires Total(v)
  {
    && |v[Addrs(node, p, nic)]| == 1 && |v[Routes(node, p, nic)]| == 1
    && DecodeRoute(v[Routes(node, p, nic)][0]) == Some(Route("", via, nic))
  }

  ghost predicate Indexed(v: View, node: Name, via: string)
    requires Total(v)
  {
    && Distinct(v[Pods(node)])
    && (forall p: Name :: p in v[Pods(node)] <==> v[NetnsOf(node, p)] != [])
    && (forall p: Name :: p in v[Pods(node)] ==> PodIndexed(v, node, p))
    && (forall p: Name :: p in v[Pods(node)] && p != HOST ==> PodHasDevice(v, node, p, via))
    && (forall t: Name :: v[PodIn(node, t)] != [] ==> NamespaceIndexed(v, node, t))
    && (v[NodeSubnet(node)] != [] <==> exists p: Name :: p != HOST && p in v[Pods(node)])
  }

  lemma PodRecords(v: View, cfg: Config, st: NodeState, p: Name)
    requires cfg.Valid() && Total(v) && ValidState(cfg, st) && Listed(st) && Matches(v, cfg, st)
    ensures p in v[Pods(cfg.node)] <==> v[NetnsOf(cfg.node, p)] != []
    ensures p in v[Pods(cfg.node)] ==> PodIndexed(v, cfg.node, p)
    ensures p in v[Pods(cfg.node)] && p != HOST ==> Knows(st, p)
  {
    hide TextsOf, IsNetns, ShortNetns;
    var n := cfg.node;
    assert Pods(n).Of(n) && NetnsOf(n, p).Of(n);
    if st.Present? && p in st.pods {
      assert ValidPod(cfg, st, p);
      assert PodIn(n, ShortNetns(st.pods[p].netns)).Of(n);
      assert PodIndexed(v, n, p);
    } else if st.Present? && p == HOST {
      BothSpellings(HOST);
      assert PodIn(n, HOST).Of(n);
    }
  }

  lemma PodDeviceRecords(v: View, cfg: Config, st: NodeState, p: Name)
    requires cfg.Faithful() && Total(v) && ValidState(cfg, st) && Listed(st) && Matches(v, cfg, st) && Knows(st, p)
    requires st.gateway == 1
    ensures cfg.cidr.addr + 1 < 0x1_0000_0000 && PodHasDevice(v, cfg.node, p, RenderQuad(cfg.cidr.addr + 1))
  {
    hide TextsOf, IsNetns, ShortNetns, DecodeRoute, RenderQuad, HostAddress;
    var n, nic := cfg.node, st.pods[p].nic;
    assert ValidPod(cfg, st, p);
    HostText(cfg, 1);
    RouteReadsBack(cfg, 1, nic);
    assert Nics(n, p).Of(n) && Addrs(n, p, nic).Of(n) && Routes(n, p, nic).Of(n);
    assert v[Nics(n, p)] == [nic];
  }

  lemma NamespaceRecords(v: View, cfg: Config, st: NodeState, t: Name)
    requires cfg.Valid() && Total(v) && ValidState(cfg, st) && Listed(st) && Matches(v, cfg, st)
    ensures v[PodIn(cfg.node, t)] != [] ==> NamespaceIndexed(v, cfg.node, t)
  {
    hide TextsOf, IsNetns, ShortNetns;
    var n := cfg.node;
    assert Pods(n).Of(n) && PodIn(n, t).Of(n);
    if st.Present? {
      if t == HOST {
        BothSpellings(HOST);
        assert NetnsOf(n, HOST).Of(n);
      } else if t in st.owner {
        var p := st.owner[t];
        HostNotPod(cfg, st);
        assert NetnsOf(n, p).Of(n);
      }
    }
  }

  /** The index invariant at every quiescent state. */
  lemma StateIndexed(cfg: Config, kv: map<string, string>, st: NodeState)
    requires cfg.Faithful() && StoreFor(kv, cfg, st) && Quiescent(cfg, st) && (st.Present? ==> st.gateway == 1)
    ensures cfg.cidr.addr + 1 < 0x1_0000_0000
    ensures Total(ViewOf(kv)) && Indexed(ViewOf(kv), cfg.node, RenderQuad(cfg.cidr.addr + 1))
  {
    hide ViewOf, Stored, TextsOf, ValidPod, PodIndexed, NamespaceIndexed, PodHasDevice, IsNetns, ShortNetns, RenderQuad,
         HostAddress;
    var v, n := ViewOf(kv), cfg.node;
    FirstHostText(cfg);
    var via := RenderQuad(cfg.cidr.addr + 1);
    ViewTotal(kv);
    assert Pods(n).Of(n) && NodeSubnet(n).Of(n);
    if st.Present? { HostNotPod(cfg, st); }
    forall p: Name
      ensures p in v[Pods(n)] <==> v[NetnsOf(n, p)] != []
      ensures p in v[Pods(n)] ==> PodIndexed(v, n, p)
      ensures p in v[Pods(n)] && p != HOST ==> PodHasDevice(v, n, p, via)
    {
      PodRecords(v, cfg, st, p);
      if Knows(st, p) { PodDeviceRecords(v, cfg, st, p); }
    }
    forall t: Name
      ensures v[PodIn(n, t)] != [] ==> NamespaceIndexed(v, n, t)
    {
      NamespaceRecords(v, cfg, st, t);
    }
    if st.Present? {
      PodRecords(v, cfg, st, st.order[0]);
    }
  }

  /** After any run the indexes of every node agree. */
  lemma IndexesHold(cfgs: Cluster, base: seq<string>, ws: seq<World>, cs: seq<Call>, n: Name)
    requires ValidCluster(cfgs) && Run(cfgs, ws, cs) && Inv(cfgs, base, ws[0]) && n in cfgs
    ensures cfgs[n].cidr.addr + 1 < 0x1_0000_0000
    ensures Total(ViewOf(ws[|cs|].kv)) && Indexed(ViewOf(ws[|cs|].kv), n, RenderQuad(cfgs[n].cidr.addr + 1))
  {
    hide ViewOf, StoreFor, Quiescent, Listing, Step, Disjoint, Indexed, TextsOf, RenderQuad;
    RunKeepsInv(cfgs, base, ws, cs, |cs|);
    StateIndexed(cfgs[n], ws[|cs|].kv, ws[|cs|].nodes[n]);
  }

  // ---------------------------------------------------------------- the gateway

  /** The first host: the network address plus one. */
  function FirstHost(c: Cidr): Cidr {
    Cidr(c.addr + 1, c.prefix)
  }

  lemma PodHost(cfg: Config, st: NodeState, p: Name)
    requires cfg.Valid() && ValidState(cfg, st) && Knows(st, p)
    ensures 1 <= st.pods[p].host <= cfg.hosts && st.pods[p].host != st.gateway
  {
    assert ValidPod(cfg, st, p);
  }

  lemma HostTextsApart(cfg: Config, i: nat, j: nat)
    requires cfg.Faithful() && 1 <= i <= cfg.hosts && 1 <= j <= cfg.hosts && i != j
    ensures cfg.texts.host(i) != cfg.texts.host(j)
  {
    hide TextsOf;
    FaithfulTextsDiffer(cfg);
  }

  lemma FirstHostText(cfg: Config)
    requires cfg.Faithful()
    ensures FirstHost(cfg.cidr).Valid() && HostAddress(cfg.cidr, 1) == cfg.cidr.addr + 1
    ensures cfg.texts.host(1) == RenderCidr(FirstHost(cfg.cidr))
  {
    hide TextsOf, HostAddress, RenderCidr;
    HostInside(cfg.cidr, 1);
    HostReadsBack(cfg, 1);
  }

  lemma GatewayOfState(cfg: Config, st: NodeState, p: Name)
    requires cfg.Faithful() && ValidState(cfg, st) && Knows(st, p) && st.gateway == 1
    ensures FirstHost(cfg.cidr).Valid()
    ensures var r := ResultOf(cfg, st, p);
            r.gateway == RenderQuad(cfg.cidr.addr + 1) && r.address != RenderCidr(FirstHost(cfg.cidr))
  {
    hide TextsOf, HostAddress, RenderQuad, RenderCidr, ValidState, ZeroBits, Size, Token;
    FirstHostText(cfg);
    PodHost(cfg, st, p);
    HostTextsApart(cfg, 1, st.pods[p].host);
  }

  /** Whatever calls came before, a node's gateway is its first host: every ADD reports it, and no
      pod is ever given it. */
  lemma GatewayStable(cfgs: Cluster, base: seq<string>, ws: seq<World>, cs: seq<Call>, n: Name, p: Name)
    requires ValidCluster(cfgs) && Run(cfgs, ws, cs) && Inv(cfgs, base, ws[0]) && n in cfgs
    requires n in ws[|cs|].nodes && Knows(ws[|cs|].nodes[n], p)
    ensures FirstHost(cfgs[n].cidr).Valid()
    ensures var r := ResultOf(cfgs[n], ws[|cs|].nodes[n], p);
            r.gateway == RenderQuad(cfgs[n].cidr.addr + 1) && r.address != RenderCidr(FirstHost(cfgs[n].cidr))
  {
    hide ViewOf, Listing, Step, Disjoint, TextsOf, HostAddress, RenderQuad, RenderCidr, ValidState, Matches;
    RunKeepsInv(cfgs, base, ws, cs, |cs|);
    GatewayOfState(cfgs[n], ws[|cs|].nodes[n], p);
  }

  // ---------------------------------------------------------------- the VTEP entry

  /** Whether a sequence of calls leaves a node's VTEP entry: the ADD that creates the node stores it,
      and the first DEL of a pod the node has deletes it. */
  function VtepLeft(cs: seq<Call>, n: Name): bool {
    if cs == [] then false else
      var prev := cs[..|cs| - 1];
      VtepAfter(Live(prev, n), VtepLeft(prev, n), cs[|cs| - 1], n)
  }

  function VtepAfter(live: seq<Name>, left: bool, c: Call, n: Name): bool {
    match c
    case AddCall(m, _, _, _) => if m == n && live == [] then true else left
    case DelCall(m, cid) => if m == n && cid in live then false else left
    case Refused => left
  }

  ghost predicate HasVtep(st: NodeState) {
    st.Present? && st.vtep
  }

  lemma AddVtep(cfg: Config, st: NodeState, cid: Name, netns: string, nic: Name, next: NodeState)
    requires cfg.Valid() && IsNetns(netns) && Quiescent(cfg, st) && Added(cfg, st, cid, netns, nic, next)
    ensures HasVtep(next) == if Order(st) == [] then true else HasVtep(st)
  {
    hide HostFree, NamespaceFree;
  }

  lemma DelVtep(cfg: Config, st: NodeState, cid: Name)
    requires cfg.Valid() && ValidState(cfg, st) && (Knows(st, cid) ==> ValidPod(cfg, st, cid))
    ensures HasVtep(Deleted(st, cid)) == if cid in Order(st) then false else HasVtep(st)
  {
  }

  lemma StepVtep(cfgs: Cluster, w: World, c: Call, x: World, n: Name)
    requires ValidCluster(cfgs) && Nodes(cfgs, w) && Step(cfgs, w, c, x) && n in cfgs && n in w.nodes && n in x.nodes
    ensures HasVtep(x.nodes[n]) == VtepAfter(Order(w.nodes[n]), HasVtep(w.nodes[n]), c, n)
  {
    hide ViewOf, ValidState, ValidCluster, Nodes, StoreFor, Quiescent, Added, ValidPod, Order, AddStep, DelStep,
         Deleted, HasVtep;
    match c
    case Refused =>
    case AddCall(m, cid, netns, nic) =>
      AddFacts(cfgs, w, c, x);
      NodeAt(cfgs, w, m);
      AddVtep(cfgs[m], w.nodes[m], cid, netns, nic, x.nodes[m]);
    case DelCall(m, cid) =>
      DelFacts(cfgs, w, c, x);
      NodeAt(cfgs, w, m);
      DelVtep(cfgs[m], w.nodes[m], cid);
  }

  lemma {:induction false} VtepTraced(cfgs: Cluster, base: seq<string>, ws: seq<World>, cs: seq<Call>, n: Name)
    requires ValidCluster(cfgs) && Run(cfgs, ws, cs) && Inv(cfgs, base, ws[0]) && n in cfgs
    requires ws[0].nodes[n].Absent?
    ensures n in ws[|cs|].nodes && HasVtep(ws[|cs|].nodes[n]) == VtepLeft(cs, n)
  {
    hide Step, ValidCluster, StoreFor, Listing, VtepAfter;
    RunKeepsInv(cfgs, base, ws, cs, |cs|);
    if cs != [] {
      var k := |cs| - 1;
      RunKeepsInv(cfgs, base, ws, cs, k);
      VtepTraced(cfgs, base, ws[..|cs|], cs[..k], n);
      LiveIsOrder(cfgs, base, ws[..|cs|], cs[..k], n);
      NodeAt(cfgs, ws[k], n);
      StepVtep(cfgs, ws[k], cs[k], ws[|cs|], n);
    }
  }

  /** In VXLAN mode a node that has pods need not have its VTEP stored: it is stored exactly until the
      first DEL of a pod after the node was created, and no later ADD stores it again. */
  lemma {:induction false} VtepExact(cfgs: Cluster, base: seq<string>, ws: seq<World>, cs: seq<Call>, n: Name)
    requires ValidCluster(cfgs) && Run(cfgs, ws, cs) && Inv(cfgs, base, ws[0]) && n in cfgs
    requires ws[0].nodes[n].Absent?
    ensures Vtep(n) in ViewOf(ws[|cs|].kv)
    ensures ViewOf(ws[|cs|].kv)[Vtep(n)] != [] <==> cfgs[n].mode.Vxlan? && VtepLeft(cs, n)
  {
    hide ViewOf, Listing, Step, Disjoint, TextsOf, VtepLeft, Quiescent, Stored, ValidState;
    RunKeepsInv(cfgs, base, ws, cs, |cs|);
    VtepTraced(cfgs, base, ws, cs, n);
    VtepEntry(cfgs[n], ViewOf(ws[|cs|].kv), ws[|cs|].nodes[n]);
  }

  lemma VtepEntry(cfg: Config, v: View, st: NodeState)
    requires Listed(st) && Matches(v, cfg, st)
    ensures Vtep(cfg.node) in v && (v[Vtep(cfg.node)] != [] <==> cfg.mode.Vxlan? && HasVtep(st))
  {
    assert Vtep(cfg.node).Of(cfg.node);
  }

  // ---------------------------------------------------------------- an ADD that finds no address

  /** No write is taken back when an ADD finds no address: the pod stays recorded with a device that
      has none, and the indexes do not hold. */
  lemma NoAddressLeavesRecord(v: View, cfg: Config, st: NodeState, cid: Name, netns: string, nic: Name, via: string)
    requires cfg.Valid() && Total(v) && ValidState(cfg, st) && st.Present? && Listed(st) && Matches(v, cfg, st)
    requires IsNetns(netns) && !Knows(st, cid) && cid != HOST
    ensures !Indexed(RecordView(v, cfg, cid, netns, nic), cfg.node, via)
  {
    hide TextsOf, IsNetns, ShortNetns, PodIndexed, NamespaceIndexed, Distinct;
    var n, w := cfg.node, RecordView(v, cfg, cid, netns, nic);
    RecordAt(v, cfg, cid, netns, nic, Pods(n));
    RecordAt(v, cfg, cid, netns, nic, Nics(n, cid));
    RecordAt(v, cfg, cid, netns, nic, Addrs(n, cid, nic));
    assert Nics(n, cid).Of(n) && Addrs(n, cid, nic).Of(n);
    assert w[Nics(n, cid)] == [nic] && w[Addrs(n, cid, nic)] == [];
    assert !PodHasDevice(w, n, cid, via);
    assert cid in w[Pods(n)];
  }

  /** The DEL of such a pod removes all its records: its device has no address to release, and the rest
      is what the refused ADD wrote. In VXLAN mode it takes the node's VTEP as well, so the store is as
      it was exactly in the other modes, or if the VTEP was gone already. */
  lemma RefusedUndone(v: View, cfg: Config, st: NodeState, cid: Name, netns: string, nic: Name)
    requires cfg.Faithful() && Total(v) && ValidState(cfg, st) && st.Present? && Listed(st) && Matches(v, cfg, st)
    requires IsNetns(netns) && !Knows(st, cid) && cid != HOST && NamespaceFree(st, netns)
    ensures var refused := RecordView(v, cfg, cid, netns, nic);
            var w := DelPodView(DelNicView(refused, cfg, cid, nic, "", true), cfg, cid, ShortNetns(netns));
            && (forall k: Key :: k in w && w[k] == if k == Vtep(cfg.node) && cfg.mode.Vxlan? then [] else v[k])
            && (w == v <==> cfg.mode.Vxlan? ==> v[Vtep(cfg.node)] == [])
  {
    hide TextsOf, IsNetns, ShortNetns, RecordView, DelNicView, DelPodView, Without, ValidState, Matches;
    var n := cfg.node;
    var a := RecordView(v, cfg, cid, netns, nic);
    var b := DelNicView(a, cfg, cid, nic, "", true);
    RemovalTotal(a, cfg, cid, nic, ShortNetns(netns));
    var w := DelPodView(b, cfg, cid, ShortNetns(netns));
    forall k: Key
      ensures k in w && w[k] == if k == Vtep(n) && cfg.mode.Vxlan? then [] else v[k]
    {
      RecordAt(v, cfg, cid, netns, nic, k);
      DelNicAt(a, cfg, cid, nic, "", true, k);
      DelPodAt(b, cfg, cid, ShortNetns(netns), k);
      RefusedEntry(v, cfg, st, cid, netns, nic, k);
    }
    if w == v { assert w[Vtep(n)] == v[Vtep(n)]; }
  }

  lemma RemovalTotal(v: View, cfg: Config, cid: Name, nic: Name, short: Name)
    requires Total(v)
    ensures Total(DelNicView(v, cfg, cid, nic, "", true))
    ensures Total(DelPodView(DelNicView(v, cfg, cid, nic, "", true), cfg, cid, short))
  {
  }

  lemma RefusedEntry(v: View, cfg: Config, st: NodeState, cid: Name, netns: string, nic: Name, k: Key)
    requires cfg.Faithful() && Total(v) && ValidState(cfg, st) && st.Present? && Listed(st) && Matches(v, cfg, st)
    requires IsNetns(netns) && !Knows(st, cid) && cid != HOST && NamespaceFree(st, netns)
    ensures DelPodEntry(cfg, cid, ShortNetns(netns), k,
                        DelNicEntry(cfg, cid, nic, "", true, k, RecordEntry(cfg, cid, netns, nic, k, v[k]))) ==
            if k == Vtep(cfg.node) && cfg.mode.Vxlan? then [] else v[k]
  {
    hide TextsOf, IsNetns, ShortNetns, Without, ValidState;
    if k == Addresses(cfg.node) {
      assert k.Of(cfg.node);
      ListedNonEmpty(cfg, st);
      WithoutAbsent(v[k], "");
    } else if k == Pods(cfg.node) {
      PodsAreNames(cfg, st, v);
      ListedNames(cfg, st);
      WithoutLast([HOST] + st.order, cid);
    } else if k == Nics(cfg.node, cid) {
      assert k.Of(cfg.node);
      assert [] + [nic] == [nic];
      WithoutSelf(nic);
    }
  }

  lemma ListedNonEmpty(cfg: Config, st: NodeState)
    requires cfg.Faithful() && ValidState(cfg, st) && st.Present? && Listed(st)
    ensures "" !in Image(cfg, st, Addresses(cfg.node))
  {
    hide TextsOf, ValidState;
    ValidListed(cfg, st);
    HostReadsBack(cfg, st.gateway);
    forall p <- st.order
      ensures cfg.texts.host(st.pods[p].host) != ""
    {
      PodHost(cfg, st, p);
      HostReadsBack(cfg, st.pods[p].host);
    }
  }

  lemma {:induction false} WithoutLast(xs: seq<string>, x: string)
    requires x !in xs
    ensures Without(xs + [x], x) == xs
  {
    if xs == [] {
      assert [] + [x] == [x];
      WithoutSelf(x);
    } else {
      WithoutLast(xs[1..], x);
      assert (xs + [x])[1..] == xs[1..] + [x];
    }
  }

  // ---------------------------------------------------------------- no address twice in the cluster

  ghost predicate HostTextOf(cfg: Config, a: string) {
    exists i: nat :: 1 <= i <= cfg.hosts && a == cfg.texts.host(i)
  }

  lemma ListedAreHosts(cfg: Config, kv: map<string, string>, st: NodeState, a: string)
    requires cfg.Valid() && StoreFor(kv, cfg, st)
    requires Addresses(cfg.node) in ViewOf(kv) && a in ViewOf(kv)[Addresses(cfg.node)]
    ensures HostTextOf(cfg, a)
  {
    hide ViewOf, Stored, TextsOf, Matches, ValidState, HostTextOf, HostTexts;
    ViewTotal(kv);
    AddressList(cfg, ViewOf(kv), st);
    ListedIsHost(cfg, st, a);
  }

  lemma ListedIsHost(cfg: Config, st: NodeState, a: string)
    requires cfg.Valid() && ValidState(cfg, st) && Listed(st) && st.Present?
    requires a in [cfg.texts.host(st.gateway)] + HostTexts(cfg, st.order, st.pods)
    ensures HostTextOf(cfg, a)
  {
    hide TextsOf, ValidState;
    var xs := HostTexts(cfg, st.order, st.pods);
    ValidListed(cfg, st);
    if a != cfg.texts.host(st.gateway) {
      var i :| 0 <= i < |xs| && xs[i] == a;
      PodHost(cfg, st, st.order[i]);
    }
  }

  lemma HostsOfTwoNodes(c: Config, d: Config, a: string)
    requires c.Faithful() && d.Faithful() && Disjoint(c.cidr, d.cidr) && HostTextOf(c, a)
    ensures !HostTextOf(d, a)
  {
    hide GenerateIp, Disjoint;
    var i: nat :| 1 <= i <= c.hosts && a == c.texts.host(i);
    forall j: nat | 1 <= j <= d.hosts
      ensures a != d.texts.host(j)
    {
      DisjointNetworksDisjointHosts(c.cidr, d.cidr, i, j);
    }
  }

  /** While no podCIDR is held by two nodes, no address is in use on two nodes. */
  lemma NoAddressTwice(cfgs: Cluster, base: seq<string>, ws: seq<World>, cs: seq<Call>, m: Name, n: Name, a: string)
    requires ValidCluster(cfgs) && Run(cfgs, ws, cs) && Inv(cfgs, base, ws[0]) && m in cfgs && n in cfgs && m != n
    requires a in ViewOf(ws[|cs|].kv)[Addresses(m)]
    ensures a !in ViewOf(ws[|cs|].kv)[Addresses(n)]
  {
    hide ViewOf, Listing, Step, Disjoint, HostTextOf, TextsOf, Quiescent;
    RunKeepsInv(cfgs, base, ws, cs, |cs|);
    var w := ws[|cs|];
    ViewTotal(w.kv);
    ListedAreHosts(cfgs[m], w.kv, w.nodes[m], a);
    HostsOfTwoNodes(cfgs[m], cfgs[n], a);
    if a in ViewOf(w.kv)[Addresses(n)] { ListedAreHosts(cfgs[n], w.kv, w.nodes[n], a); }
  }

  // ---------------------------------------------------------------- teardown round trip

  /** Every ADD is followed, at some point, by the DEL of its container. */
  ghost predicate Matched(cs: seq<Call>) {
    forall i | 0 <= i < |cs| && cs[i].AddCall? :: DeletedLater(cs, i)
  }

  ghost predicate DeletedLater(cs: seq<Call>, i: nat)
    requires i < |cs| && cs[i].AddCall?
  {
    exists j | i < j < |cs| :: cs[j] == DelCall(cs[i].node, cs[i].cid)
  }

  lemma {:induction false} WithoutNameIn(xs: seq<Name>, x: Name, p: Name)
    ensures p in WithoutName(xs, x) <==> p in xs && p != x
  {
    if xs != [] { WithoutNameIn(xs[1..], x, p); }
  }

  /** A live pod had an ADD that no DEL followed. */
  lemma {:induction false} LiveWasAdded(cs: seq<Call>, n: Name, p: Name) returns (i: nat)
    requires p in Live(cs, n)
    ensures i < |cs| && cs[i].AddCall? && cs[i].node == n && cs[i].cid == p
    ensures forall j | i < j < |cs| :: cs[j] != DelCall(n, p)
  {
    hide WithoutName;
    var k := |cs| - 1;
    var before := Live(cs[..k], n);
    if cs[k].DelCall? { WithoutNameIn(before, cs[k].cid, p); }
    if p in before {
      i := LiveWasAdded(cs[..k], n, p);
    } else {
      i := k;
    }
  }

  lemma NotDeletedLater(cs: seq<Call>, i: nat)
    requires i < |cs| && cs[i].AddCall? && forall j | i < j < |cs| :: cs[j] != DelCall(cs[i].node, cs[i].cid)
    ensures !DeletedLater(cs, i)
  {
  }

  lemma {:induction false} MatchedLeavesNone(cs: seq<Call>, n: Name)
    requires Matched(cs)
    ensures Live(cs, n) == []
  {
    if Live(cs, n) != [] {
      var i := LiveWasAdded(cs, n, Live(cs, n)[0]);
      NotDeletedLater(cs, i);
    }
  }

  lemma {:induction false} OthersOverRun(cfgs: Cluster, base: seq<string>, ws: seq<World>, cs: seq<Call>, i: nat,
                                         k: Key)
    requires ValidCluster(cfgs) && Run(cfgs, ws, cs) && Inv(cfgs, base, ws[0]) && i <= |cs|
    requires k != Subnets && k.node !in cfgs
    ensures Foreign(ws[i].kv) == Foreign(ws[0].kv)
    ensures k in ViewOf(ws[0].kv) && k in ViewOf(ws[i].kv) && ViewOf(ws[i].kv)[k] == ViewOf(ws[0].kv)[k]
  {
    hide ViewOf, Foreign, Stored, Nodes, Listing, Step, ValidCluster;
    ViewTotal(ws[0].kv);
    if i > 0 {
      OthersOverRun(cfgs, base, ws, cs, i - 1, k);
      OthersOverStep(cfgs, ws[i - 1], cs[i - 1], ws[i], k);
    }
  }

  lemma OthersOverStep(cfgs: Cluster, w: World, c: Call, x: World, k: Key)
    requires ValidCluster(cfgs) && Step(cfgs, w, c, x) && k != Subnets && k.node !in cfgs
    ensures Foreign(x.kv) == Foreign(w.kv)
    ensures k in ViewOf(w.kv) && k in ViewOf(x.kv) && ViewOf(x.kv)[k] == ViewOf(w.kv)[k]
  {
    hide ViewOf, Foreign, Stored, StoreFor, Added, FirstFree, Used, ValidState, ValidPod, Disjoint, TextsOf, WithoutPod,
         WithoutName;
    ViewTotal(w.kv);
    ViewTotal(x.kv);
    if !c.Refused? {
      assert cfgs[c.node].node == c.node;
      assert !k.Of(c.node);
    }
  }

  lemma HasFirst(xs: seq<Name>)
    requires xs != []
    ensures exists x: Name :: x in xs
  {
    assert xs[0] in xs;
  }

  lemma NoneCreated(cfgs: Cluster, base: seq<string>, w: World)
    requires ValidCluster(cfgs) && Inv(cfgs, base, w) && forall n <- cfgs :: w.nodes[n].Absent?
    ensures w.created == []
    ensures Subnets in ViewOf(w.kv) && ViewOf(w.kv)[Subnets] == base
  {
    hide ViewOf, StoreFor, Quiescent, Disjoint, TextsOf;
    ViewTotal(w.kv);
    if w.created != [] { HasFirst(w.created); }
    assert base + [] == base;
  }

  lemma AbsentEntry(cfg: Config, kv: map<string, string>, k: Key)
    requires cfg.Valid() && StoreFor(kv, cfg, Absent) && k.Of(cfg.node)
    ensures k in ViewOf(kv) && ViewOf(kv)[k] == []
  {
    hide ViewOf, Stored, TextsOf;
  }

  /** Nothing happened since, on balance: no node before, and every ADD matched. */
  ghost predicate Balanced(cfgs: Cluster, base: seq<string>, ws: seq<World>, cs: seq<Call>) {
    && ValidCluster(cfgs) && Run(cfgs, ws, cs) && Inv(cfgs, base, ws[0]) && Matched(cs)
    && forall n <- cfgs :: ws[0].nodes[n].Absent?
  }

  lemma EndsAbsent(cfgs: Cluster, base: seq<string>, ws: seq<World>, cs: seq<Call>, n: Name)
    requires Balanced(cfgs, base, ws, cs) && n in cfgs
    ensures n in ws[|cs|].nodes && ws[|cs|].nodes[n].Absent?
  {
    hide ViewOf, Listing, Step, Disjoint, TextsOf, Matched, StoreFor, Live, ValidState;
    RunKeepsInv(cfgs, base, ws, cs, |cs|);
    LiveIsOrder(cfgs, base, ws, cs, n);
    MatchedLeavesNone(cs, n);
  }

  lemma EntryBack(cfgs: Cluster, base: seq<string>, ws: seq<World>, cs: seq<Call>, k: Key)
    requires Balanced(cfgs, base, ws, cs)
    ensures k in ViewOf(ws[0].kv) && k in ViewOf(ws[|cs|].kv) && ViewOf(ws[|cs|].kv)[k] == ViewOf(ws[0].kv)[k]
  {
    hide ViewOf, Listing, Step, Disjoint, TextsOf, Matched, StoreFor, Quiescent;
    RunKeepsInv(cfgs, base, ws, cs, |cs|);
    if k == Subnets {
      forall n <- cfgs ensures ws[|cs|].nodes[n].Absent? { EndsAbsent(cfgs, base, ws, cs, n); }
      NoneCreated(cfgs, base, ws[0]);
      NoneCreated(cfgs, base, ws[|cs|]);
    } else if k.node in cfgs {
      EndsAbsent(cfgs, base, ws, cs, k.node);
      AbsentEntry(cfgs[k.node], ws[0].kv, k);
      AbsentEntry(cfgs[k.node], ws[|cs|].kv, k);
    } else {
      OthersOverRun(cfgs, base, ws, cs, |cs|, k);
    }
  }

  lemma {:induction false} ForeignOverRun(cfgs: Cluster, ws: seq<World>, cs: seq<Call>, i: nat)
    requires ValidCluster(cfgs) && Run(cfgs, ws, cs) && Stored(ws[0].kv) && i <= |cs|
    ensures Stored(ws[i].kv) && Foreign(ws[i].kv) == Foreign(ws[0].kv)
  {
    hide ViewOf, Foreign, Stored, StoreFor, Added, FirstFree, Used, ValidState, ValidPod, Disjoint, TextsOf, WithoutPod,
         WithoutName;
    if i > 0 {
      ForeignOverRun(cfgs, ws, cs, i - 1);
      assert Step(cfgs, ws[i - 1], cs[i - 1], ws[i]);
    }
  }

  /** In every mode, a run that starts with no node and in which every ADD is later matched by its
      DEL gives back exactly the store it started from: no entry of any family is left over. */
  lemma RoundTrip(cfgs: Cluster, base: seq<string>, ws: seq<World>, cs: seq<Call>)
    requires Balanced(cfgs, base, ws, cs) && Stored(ws[0].kv)
    ensures ws[|cs|].kv == ws[0].kv
  {
    hide ViewOf, Foreign, Stored, Inv, Step, ValidCluster, Matched;
    var kv, after := ws[0].kv, ws[|cs|].kv;
    forall k: Key
      ensures k in ViewOf(kv) && k in ViewOf(after) && ViewOf(after)[k] == ViewOf(kv)[k]
    {
      EntryBack(cfgs, base, ws, cs, k);
    }
    assert ViewOf(after) == ViewOf(kv);
    ForeignOverRun(cfgs, ws, cs, |cs|);
    StoreDetermined(kv, after);
  }

  // ---------------------------------------------------------------- repeated and unknown calls

  /** While a pod lives, every repeated ADD reports the same address and the same gateway. */
  lemma {:induction false} SameWhileLive(cfgs: Cluster, base: seq<string>, ws: seq<World>, cs: seq<Call>, i: nat,
                                         j: nat, n: Name, p: Name)
    requires ValidCluster(cfgs) && Run(cfgs, ws, cs) && Inv(cfgs, base, ws[0]) && i <= j <= |cs| && n in cfgs
    requires n in ws[i].nodes && Knows(ws[i].nodes[n], p)
    requires forall k | i <= k < j :: cs[k] != DelCall(n, p)
    ensures n in ws[j].nodes && Knows(ws[j].nodes[n], p)
    ensures ResultOf(cfgs[n], ws[j].nodes[n], p) == ResultOf(cfgs[n], ws[i].nodes[n], p)
    decreases j
  {
    hide ViewOf, StoreFor, Listing, Step, Disjoint, TextsOf, HostAddress, RenderQuad, Quiescent;
    if i < j {
      SameWhileLive(cfgs, base, ws, cs, i, j - 1, n, p);
      RunKeepsInv(cfgs, base, ws, cs, j - 1);
      RunKeepsInv(cfgs, base, ws, cs, j);
      assert Step(cfgs, ws[j - 1], cs[j - 1], ws[j]) && cs[j - 1] != DelCall(n, p);
      PodSurvives(cfgs, ws[j - 1], cs[j - 1], ws[j], n, p);
    }
  }

  lemma PodSurvives(cfgs: Cluster, w: World, c: Call, x: World, n: Name, p: Name)
    requires ValidCluster(cfgs) && Step(cfgs, w, c, x) && n in w.nodes && Knows(w.nodes[n], p) && c != DelCall(n, p)
    ensures n in x.nodes && Knows(x.nodes[n], p)
    ensures x.nodes[n].pods[p] == w.nodes[n].pods[p] && x.nodes[n].gateway == w.nodes[n].gateway
  {
    hide ViewOf, StoreFor, Kept, Disjoint, FirstFree, TextsOf, Used, HostFree, NamespaceFree, WithoutName;
    if c.DelCall? && c.node == n && Knows(w.nodes[n], c.cid) { OrderHolds(cfgs[n], w.nodes[n], c.cid, p); }
  }

  lemma OrderHolds(cfg: Config, st: NodeState, cid: Name, p: Name)
    requires cfg.Valid() && ValidState(cfg, st) && Knows(st, cid) && Knows(st, p) && p != cid && ValidPod(cfg, st, cid)
    ensures Deleted(st, cid).Present? && p in Deleted(st, cid).pods
  {
    WithoutNameIn(st.order, cid, p);
  }

  /** A repeated ADD succeeds exactly when the podCIDR lies strictly inside the configured subnet:
      the check on the stored address is the check on the node's network. */
  lemma RepeatExact(cfg: Config, host: nat)
    requires cfg.Faithful() && 1 <= host <= cfg.hosts
    ensures IsSubnetOf(HostCidr(cfg, host), cfg.subnet) <==> IsSubnetOf(cfg.cidr, cfg.subnet)
  {
    hide TextsOf;
    HostInside(cfg.cidr, host);
    NetworkIsFloor(cfg.cidr);
    if cfg.subnet.prefix < cfg.cidr.prefix {
      FloorsNest(cfg.cidr.addr, cfg.cidr.prefix, cfg.subnet.prefix);
      SameBlock(cfg.cidr.addr + host, cfg.cidr.addr, cfg.subnet.prefix);
    }
  }

  // ---------------------------------------------------------------- room for one more

  lemma RangeSize(n: nat) returns (s: set<nat>)
    ensures |s| == n && forall i: nat :: i in s <==> 1 <= i <= n
  {
    s := {};
    for k := 0 to n
      invariant |s| == k && forall i: nat :: i in s <==> 1 <= i <= k
    {
      s := s + {k + 1};
    }
  }

  ghost function PodCount(st: NodeState): nat {
    |Order(st)|
  }

  lemma {:induction false} HostsTaken(st: NodeState, xs: seq<Name>) returns (s: set<nat>)
    requires st.Present? && Distinct(xs) && forall p <- xs :: p in st.pods && st.pods[p].host != st.gateway
    requires forall p <- xs, q <- xs :: st.pods[p].host == st.pods[q].host ==> p == q
    ensures |s| == |xs| + 1 && st.gateway in s
    ensures forall h <- s :: h == st.gateway || exists i | 0 <= i < |xs| :: st.pods[xs[i]].host == h
  {
    if xs == [] {
      s := {st.gateway};
    } else {
      var k := |xs| - 1;
      s := HostsTaken(st, xs[..k]);
      assert st.pods[xs[k]].host !in s;
      s := s + {st.pods[xs[k]].host};
    }
  }

  /** Every host is in use when the node has one pod fewer than hosts. */
  lemma FullWhenFull(cfg: Config, st: NodeState, i: nat)
    requires cfg.Valid() && ValidState(cfg, st) && st.Present? && Listed(st) && |st.order| + 1 >= cfg.hosts
    requires 1 <= i <= cfg.hosts
    ensures cfg.texts.host(i) in Image(cfg, st, Addresses(cfg.node))
  {
    forall p <- st.order ensures p in st.pods && ValidPod(cfg, st, p) {}
    var taken := HostsTaken(st, st.order);
    var all := RangeSize(cfg.hosts);
    assert taken <= all;
    if taken < all { SubsetSmaller(taken, all); assert false; }
    assert i in taken;
    var xs := HostTexts(cfg, st.order, st.pods);
    if i != st.gateway {
      var j :| 0 <= j < |st.order| && st.pods[st.order[j]].host == i;
      assert xs[j] == cfg.texts.host(i);
    }
  }

  /** An ADD finds an address exactly when the node has fewer pods than hosts beside the gateway. */
  lemma RoomExact(cfg: Config, st: NodeState)
    requires cfg.Faithful() && ValidState(cfg, st) && Listed(st) && (st.Present? ==> st.gateway == 1)
    ensures FirstFree(cfg.cidr, Used(cfg, st), 1).Some? <==> PodCount(st) + 1 < cfg.hosts
    ensures PodCount(st) + 1 < cfg.hosts <==> |Order(st)| + 3 < Pow2(32 - cfg.cidr.prefix)
  {
    hide GenerateIp, ValidPod;
    HostsExact(cfg.cidr, cfg.cidr.addr);
    var used := Used(cfg, st);
    assert |used| == PodCount(st) + 1;
    if PodCount(st) + 1 < cfg.hosts {
      FreeWhileNotFull(cfg.cidr, used);
    } else if st.Present? {
      forall i | 1 <= i <= cfg.hosts ensures GenerateIp(cfg.cidr, i) in used { FullWhenFull(cfg, st, i); }
    }
  }
}
