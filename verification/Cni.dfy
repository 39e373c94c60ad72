/** CNI ADD and DEL of src/cni/cni.cc for one node. Every call rebuilds the cluster object from the
    store, then changes both. The calls are proved against the abstract states of NodeModel. */
module Cni {
  import opened Wrappers
  import opened Keys
  import opened Etcd
  import opened Ipv4
  import opened Subnet
  import opened Ipam
  import opened Storage
  import opened NodeModel
  import opened NodeStore
  import opened Steps
  import opened ClusterObject
  import opened Records

  class Cni {
    const cfg: Config
    const client: Client
    const ipam: Ipam
    const storage: Storage
    var cluster: Option<NodeObj>
    var gateway: Option<Cidr>

    ghost predicate Wired() {
      && ipam.client == client && storage.client == client
      && client.reliableReads && cfg.Faithful()
    }

    constructor (cfg: Config, client: Client)
      requires client.reliableReads && cfg.Faithful()
      ensures Wired() && this.cfg == cfg && this.client == client
      ensures cluster == None && gateway == None
    {
      this.cfg, this.client := cfg, client;
      ipam := new Ipam(client);
      storage := new Storage(client);
      cluster, gateway := None, None;
    }

    // -------------------------------------------------------------- rebuilding the cluster

    /** The gateway is unknown or the node's. */
    ghost predicate GatewayFits(st: NodeState)
      requires Wired() && st.Present?
      reads this
    {
      gateway == None || gateway == Some(HostCidr(cfg, st.gateway))
    }

    /** The address loop: the first address read on the bridge becomes the gateway if none is
        known. */
    method ReadAddrs(texts: seq<string>, nic: Name) returns (addrs: seq<Cidr>)
      requires forall a <- texts :: ParseAddr(a).Some?
      modifies this`gateway
      ensures AddrsRead(texts, addrs)
      ensures gateway == if old(gateway) == None && nic == cfg.bridge && texts != [] then ParseAddr(texts[0])
        else old(gateway)
    {
      hide ParseAddr;
      addrs := [];
      for j := 0 to |texts|
        invariant |addrs| == j && forall i | 0 <= i < j :: ParseAddr(texts[i]) == Some(addrs[i])
        invariant gateway == if old(gateway) == None && nic == cfg.bridge && j > 0 then ParseAddr(texts[0])
          else old(gateway)
      {
        assert texts[j] in texts;
        var addr := ParseAddr(texts[j]);
        if gateway == None && nic == cfg.bridge {
          gateway := addr;
        }
        addrs := addrs + [addr.value];
      }
    }

    /** One device of a pod. */
    method LoadNic(pod: Name, nic: Name, ghost st: NodeState) returns (obj: NicObj)
      requires Wired() && Stored(client.kv)
      requires ValidState(cfg, st) && st.Present? && Listed(st) && Matches(ViewOf(client.kv), cfg, st)
      requires GatewayFits(st) && (pod != HOST ==> gateway.Some?)
      modifies this`gateway
      ensures obj == NicImage(cfg, st, pod, nic)
      ensures GatewayFits(st) && (old(gateway).Some? || (pod == HOST && nic == cfg.bridge) ==> gateway.Some?)
    {
      hide ParseAddr, DecodeRoute, TextsOf, KeyText, HostAddress, NicImage, Image, ValidState, Stored, RoutesRead,
           AddrsRead;
      ghost var storedAddrs := Image(cfg, st, Addrs(cfg.node, pod, nic));
      ghost var storedRoutes := Image(cfg, st, Routes(cfg.node, pod, nic));
      ghost var image := NicImage(cfg, st, pod, nic);
      NicReadsBack(cfg, st, pod, nic);
      BridgeReadsBack(cfg, st, pod, nic);
      var texts := storage.GetAllAddrs(cfg.node, pod, nic);
      assert texts == storedAddrs;
      var addrs := ReadAddrs(texts, nic);
      ReadsAgree(storedAddrs, addrs, image.addrs);
      assert ViewOf(client.kv)[Routes(cfg.node, pod, nic)] == storedRoutes;
      var routes := storage.GetAllRoutes(cfg.node, pod, nic);
      RoutesAgree(storedRoutes, routes, image.routes);
      obj := NicObj(nic, addrs, routes);
    }

    /** One pod, with the devices listed for it. */
    method LoadPod(pod: Name, ghost st: NodeState) returns (obj: PodObj)
      requires Wired() && Stored(client.kv)
      requires ValidState(cfg, st) && st.Present? && Listed(st) && Matches(ViewOf(client.kv), cfg, st)
      requires pod == HOST || pod in st.pods
      requires GatewayFits(st) && (pod != HOST ==> gateway.Some?)
      modifies this`gateway
      ensures obj == PodImage(cfg, st, pod)
      ensures GatewayFits(st) && gateway.Some?
    {
      hide ParseAddr, DecodeRoute, TextsOf, KeyText, HostAddress, NicImage, NicsOf, Image, ValidState, Matches, ViewOf,
           Stored, Listed;
      ghost var names := NicNames(cfg, st, pod);
      var nics := storage.GetAllNic(cfg.node, pod);
      assert nics == names by { NicsAreNames(cfg, st, pod, ViewOf(client.kv)); }
      NamesDiffer(cfg, st, pod);
      var objs: map<Name, NicObj> := map[];
      assert objs == NicsOf(cfg, st, pod, names[..0]) by { NicsOfNone(cfg, st, pod); }
      for j := 0 to |nics|
        invariant GatewayFits(st) && (old(gateway).Some? || j > 0 ==> gateway.Some?)
        invariant objs == NicsOf(cfg, st, pod, names[..j])
      {
        assert nics[j] == names[j];
        var nic: Name := nics[j];
        if pod != HOST {
          var netns := storage.GetNetns(cfg.node, pod);
          assert netns != "" by { NetnsRecorded(cfg, st, pod, ViewOf(client.kv)); }
        }
        var obj := LoadNic(pod, nic, st);
        objs := objs[nic := obj];
        NicsOfStep(cfg, st, pod, names, j);
      }
      assert names[..|nics|] == names;
      obj := PodObj(pod, objs);
    }

    /** `getKubernetesCluster`: no node when no subnet is stored for it. */
    method GetKubernetesCluster(ghost st: NodeState) returns (result: Option<NodeObj>)
      requires Wired() && Stored(client.kv)
      requires ValidState(cfg, st) && Listed(st) && Matches(ViewOf(client.kv), cfg, st)
      requires st.Present? ==> GatewayFits(st)
      modifies this`gateway
      ensures result == ClusterImage(cfg, st)
      ensures if st.Present? then GatewayFits(st) && gateway.Some? else gateway == old(gateway)
    {
      hide ParseAddr, DecodeRoute, KeyText, HostAddress, PodImage, PodsOf, ValidState, Image, Matches, ViewOf, Stored,
           Listed, TextsOf, ParseNetwork;
      var ok, subnet := ipam.GetSubnet(cfg.node);
      SubnetReadsBack(cfg, st, client.kv);
      if !ok { return None; }
      var parsed := ParseNetwork(subnet);
      var names := storage.GetAllPods(cfg.node);
      ghost var pods: seq<Name> := [HOST] + st.order;
      PodsAreNames(cfg, st, ViewOf(client.kv));
      ValidListed(cfg, st);
      assert names == pods;
      var objs: map<Name, PodObj> := map[];
      assert objs == PodsOf(cfg, st, pods[..0]) by { PodsOfNone(cfg, st); }
      for j := 0 to |names|
        invariant GatewayFits(st) && (j > 0 ==> gateway.Some?)
        invariant objs == PodsOf(cfg, st, pods[..j])
      {
        assert names[j] == pods[j] && (pods[j] == HOST || pods[j] in st.order);
        var pod: Name := names[j];
        var obj := LoadPod(pod, st);
        objs := objs[pod := obj];
        PodsOfStep(cfg, st, pods, j);
      }
      assert pods[..|names|] == pods;
      result := Some(NodeObj(parsed.value, objs));
    }

    // -------------------------------------------------------------- creating the node

    /** `allocateIp` on a node whose subnet is stored, with the index of the address. */
    method AllocateHost() returns (r: Option<string>, ghost host: nat)
      requires Wired() && Stored(client.kv) && ViewOf(client.kv)[NodeSubnet(cfg.node)] == [cfg.texts.subnet]
      modifies client`kv, client`lost
      ensures r.Some? ==>
        && 1 <= host <= cfg.hosts && r.value == cfg.texts.host(host)
        && r.value !in old(ViewOf(client.kv))[Addresses(cfg.node)]
        && Changed(old(client.kv), client.kv, Addresses(cfg.node),
                   old(ViewOf(client.kv))[Addresses(cfg.node)] + [r.value])
      ensures r.None? ==> client.kv == old(client.kv)
      ensures client.reliableWrites ==>
        var free := FirstFree(cfg.cidr, old(ViewOf(client.kv))[Addresses(cfg.node)], 1);
        if free.Some? then r.Some? && host == free.value else r.None?
    {
      hide ViewOf, Stored, Foreign, KeyText, RenderCidr, ParseNetwork, Read, HostAddress;
      ViewTotal(client.kv);
      ghost var used := ViewOf(client.kv)[Addresses(cfg.node)];
      NetworkStored(cfg, client.kv);
      var a;
      ghost var read;
      a, read := ipam.AllocateIp(cfg.node);
      host := 0;
      if !a.Allocated? { return None, 0; }
      host := FoundHost(cfg, a.ip, used, client.reliableWrites);
      r := Some(a.ip);
    }

    /** `getBridge`: the device and its address, which is every pod's gateway. */
    method GetBridge(addr: string, ghost gw: nat) returns (r: Result<NicObj, CniError>)
      requires Wired() && Stored(client.kv) && gw >= 1 && addr == cfg.texts.host(gw)
      modifies client`kv, client`lost
      ensures r.Ok? ==>
        && Stored(client.kv) && Foreign(client.kv) == old(Foreign(client.kv))
        && ViewOf(client.kv) == BridgeView(old(ViewOf(client.kv)), cfg, addr)
        && r.value == NicObj(cfg.bridge, [HostCidr(cfg, gw)], [])
      ensures Kept(old(client.kv), client.kv, cfg.node)
      ensures client.reliableWrites ==> r.Ok?
    {
      hide ViewOf, Stored, Foreign, KeyText, RenderCidr, ParseAddr, TextsOf, HostAddress, OthersKept;
      ghost var kv0 := client.kv;
      ViewTotal(kv0);
      SameKept(kv0, cfg.node);
      HostReadsBack(cfg, gw);
      var parsed := ParseAddr(addr);
      var ok := storage.AddNic(cfg.node, HOST, cfg.bridge);
      if !ok { return Err(StoreFailed); }
      ghost var kv1 := client.kv;
      ViewTotal(kv1);
      ChangedKept(kv0, kv1, Nics(cfg.node, HOST), ViewOf(kv0)[Nics(cfg.node, HOST)] + [cfg.bridge], cfg.node);
      ok := storage.AddAddr(cfg.node, HOST, cfg.bridge, RenderCidr(parsed.value));
      if !ok { return Err(StoreFailed); }
      ChangedKept(kv1, client.kv, Addrs(cfg.node, HOST, cfg.bridge),
                  ViewOf(kv1)[Addrs(cfg.node, HOST, cfg.bridge)] + [addr], cfg.node);
      KeptTrans(kv0, kv1, client.kv, cfg.node);
      r := Ok(NicObj(cfg.bridge, [parsed.value], []));
    }

    /** `getVxlan`: the device, its address, which is the network address, and the VTEP entry. */
    method GetVxlan() returns (r: Result<NicObj, CniError>)
      requires Wired() && Stored(client.kv)
      modifies client`kv, client`lost
      ensures r.Ok? ==>
        && Stored(client.kv) && Foreign(client.kv) == old(Foreign(client.kv))
        && ViewOf(client.kv) == VxlanView(old(ViewOf(client.kv)), cfg)
        && r.value == NicObj(NAME_VXLAN, [Cidr(cfg.cidr.addr, MAX_PREFIX)], [])
      ensures Kept(old(client.kv), client.kv, cfg.node)
      ensures client.reliableWrites ==> r.Ok?
    {
      hide ViewOf, Stored, Foreign, KeyText, RenderCidr, RenderQuad, ParseAddr, TextsOf, HostAddress, OthersKept,
           ExtractAddr;
      ghost var kv0 := client.kv;
      ViewTotal(kv0);
      SameKept(kv0, cfg.node);
      VxlanTexts(cfg);
      var ok := storage.AddNic(cfg.node, HOST, NAME_VXLAN);
      if !ok { return Err(StoreFailed); }
      ghost var kv1 := client.kv;
      ViewTotal(kv1);
      ChangedKept(kv0, kv1, Nics(cfg.node, HOST), ViewOf(kv0)[Nics(cfg.node, HOST)] + [NAME_VXLAN], cfg.node);
      var bare := ExtractAddr(cfg.cidr);
      var parsed := ParseAddr(bare);
      ok := storage.AddAddr(cfg.node, HOST, NAME_VXLAN, RenderCidr(parsed.value));
      if !ok { return Err(StoreFailed); }
      ghost var kv2 := client.kv;
      ViewTotal(kv2);
      ChangedKept(kv1, kv2, Addrs(cfg.node, HOST, NAME_VXLAN),
                  ViewOf(kv1)[Addrs(cfg.node, HOST, NAME_VXLAN)] + [cfg.texts.vxlan], cfg.node);
      KeptTrans(kv0, kv1, kv2, cfg.node);
      ok := storage.AddVtep(cfg.node, bare, cfg.mac);
      if !ok { return Err(StoreFailed); }
      ChangedKept(kv2, client.kv, Vtep(cfg.node), [cfg.texts.vtep], cfg.node);
      KeptTrans(kv0, kv2, client.kv, cfg.node);
      r := Ok(NicObj(NAME_VXLAN, [parsed.value], []));
    }

    /** The stores of `getRootPod`. */
    method GetRootPod() returns (ok: bool)
      requires Wired() && Stored(client.kv)
      modifies client`kv, client`lost
      ensures ok ==>
        && Stored(client.kv) && Foreign(client.kv) == old(Foreign(client.kv))
        && ViewOf(client.kv) == RootView(old(ViewOf(client.kv)), cfg)
      ensures Kept(old(client.kv), client.kv, cfg.node)
      ensures client.reliableWrites ==> ok
    {
      hide ViewOf, Stored, Foreign, KeyText, OthersKept, TextsOf;
      ghost var kv0 := client.kv;
      ViewTotal(kv0);
      SameKept(kv0, cfg.node);
      BothSpellings(HOST);
      ok := storage.AddNetns(cfg.node, HOST, HOST);
      if !ok { return; }
      ghost var kv1 := client.kv;
      ViewTotal(kv1);
      ChangedKept(kv0, kv1, NetnsOf(cfg.node, HOST), [HOST], cfg.node);
      ghost var read;
      ok, read := storage.AddPod(cfg.node, HOST, HOST);
      PodAddedKept(kv1, client.kv, cfg.node, HOST, HOST);
      KeptTrans(kv0, kv1, client.kv, cfg.node);
    }

    /** The root namespace of a new node: bridge, VXLAN device in that mode, underlay. */
    method CreateHost(addr: string, ghost gw: nat) returns (r: Result<PodObj, CniError>)
      requires Wired() && Stored(client.kv) && gw >= 1 && addr == cfg.texts.host(gw)
      modifies client`kv, client`lost
      ensures r.Ok? ==>
        && Stored(client.kv) && Foreign(client.kv) == old(Foreign(client.kv))
        && ViewOf(client.kv) == HostView(old(ViewOf(client.kv)), cfg, addr)
        && r.value == PodImage(cfg, Created(gw), HOST)
      ensures Kept(old(client.kv), client.kv, cfg.node)
      ensures client.reliableWrites ==> r.Ok?
    {
      hide ViewOf, Stored, Foreign, KeyText, RenderCidr, ParseAddr, ParseNetwork, TextsOf, HostAddress, OthersKept,
           HostNics, PodImage;
      ghost var kv0 := client.kv;
      ViewTotal(kv0);
      var bridge := GetBridge(addr, gw);
      if bridge.Err? { return Err(bridge.error); }
      ghost var kv3 := client.kv;
      var nics: map<Name, NicObj> := map[cfg.bridge := bridge.value];
      if cfg.mode.Vxlan? {
        var vxlan := GetVxlan();
        KeptTrans(kv0, kv3, client.kv, cfg.node);
        if vxlan.Err? { return Err(vxlan.error); }
        nics := nics[NAME_VXLAN := vxlan.value];
      }
      ghost var kv4 := client.kv;
      ViewTotal(kv4);
      var ok := storage.AddNic(cfg.node, HOST, cfg.underlay);
      if !ok { return Err(StoreFailed); }
      ghost var kv5 := client.kv;
      ViewTotal(kv5);
      ChangedKept(kv4, kv5, Nics(cfg.node, HOST), ViewOf(kv4)[Nics(cfg.node, HOST)] + [cfg.underlay], cfg.node);
      KeptTrans(kv0, kv4, kv5, cfg.node);
      nics := nics[cfg.underlay := NicObj(cfg.underlay, [], [])];
      ok := GetRootPod();
      KeptTrans(kv0, kv5, client.kv, cfg.node);
      if !ok { return Err(StoreFailed); }
      HostImage(cfg, gw, nics);
      r := Ok(PodObj(HOST, nics));
    }

    /** The creating branch of `getKubernetesNode`. */
    method CreateNode() returns (r: Result<NodeObj, CniError>, ghost gw: nat)
      requires Wired() && Stored(client.kv) && Matches(ViewOf(client.kv), cfg, Absent)
      modifies this, client`kv, client`lost
      ensures r.Ok? ==>
        && 1 <= gw <= cfg.hosts
        && Stored(client.kv) && Foreign(client.kv) == old(Foreign(client.kv))
        && ViewOf(client.kv) == CreateView(old(ViewOf(client.kv)), cfg, gw)
        && r.value == NodeImage(cfg, Created(gw)) && cluster == Some(r.value)
        && gateway == Some(HostCidr(cfg, gw))
      ensures Kept(old(client.kv), client.kv, cfg.node)
      ensures client.reliableWrites ==> r.Ok? && gw == 1
    {
      hide ViewOf, Stored, Foreign, KeyText, RenderCidr, ParseAddr, ParseNetwork, TextsOf, HostAddress, OthersKept,
           FirstFree, HostCount, NodeImage, HostNics, PodImage, HostView;
      ghost var kv0 := client.kv;
      ViewTotal(kv0);
      SameKept(kv0, cfg.node);
      SubnetReadsBack(cfg, Absent, kv0);
      gw := 0;
      assert NodeSubnet(cfg.node).Of(cfg.node) && Addresses(cfg.node).Of(cfg.node);
      var ok, subnet;
      ghost var known, read;
      ok, subnet, known, read := ipam.AllocateSubnet(cfg.node, RenderCidr(cfg.cidr));
      RegisteredKept(kv0, client.kv, cfg.node, cfg.texts.subnet, ok);
      if !ok { return Err(NoSubnet), gw; }
      ghost var kv1 := client.kv;
      ViewTotal(kv1);
      assert ViewOf(kv1) == SubnetView(ViewOf(kv0), cfg);
      var addr;
      addr, gw := AllocateHost();
      FirstOfNone(cfg);
      if addr.None? { return Err(NoAddress), gw; }
      ghost var kv2 := client.kv;
      ViewTotal(kv2);
      ChangedKept(kv1, kv2, Addresses(cfg.node), ViewOf(kv1)[Addresses(cfg.node)] + [addr.value], cfg.node);
      KeptTrans(kv0, kv1, kv2, cfg.node);
      HostReadsBack(cfg, gw);
      gateway := ParseAddr(addr.value);
      var host := CreateHost(addr.value, gw);
      KeptTrans(kv0, kv2, client.kv, cfg.node);
      if host.Err? { return Err(host.error), gw; }
      var pods: map<Name, PodObj> := map[HOST := host.value];
      var node := NodeObj(ParseNetwork(subnet).value, pods);
      CreatedImage(cfg, gw, pods);
      cluster := Some(node);
      r := Ok(node);
    }

    // -------------------------------------------------------------- adding a pod

    /** `configPodNetwork`: an address from the node's subnet and the default route through the
        gateway. */
    method ConfigPodNetwork(cid: Name, nic: Name, ghost gw: nat) returns (r: Result<NicObj, CniError>, ghost host: nat)
      requires Wired() && Stored(client.kv) && ViewOf(client.kv)[NodeSubnet(cfg.node)] == [cfg.texts.subnet]
      requires 1 <= gw <= cfg.hosts && gateway == Some(HostCidr(cfg, gw))
      modifies client`kv, client`lost
      // The texts that are stored: the address is listed and recorded, and the route goes via the gateway.
      ensures r.Ok? ==>
        && 1 <= host <= cfg.hosts && cfg.cidr.addr + host < 0x1_0000_0000
        && NetworkWritten(old(client.kv), client.kv, cfg.node, cid, nic,
                          WithPrefix(cfg.cidr.addr + host, cfg.cidr.prefix), RenderQuad(gateway.value.addr),
                          TextAt(old(client.kv), "/ohno/addresses/" + cfg.node))
        && SameBut(old(client.kv), client.kv, NetworkKeys(cfg.node, cid, nic))
      ensures r.Ok? ==>
        && cfg.texts.host(host) !in old(ViewOf(client.kv))[Addresses(cfg.node)]
        && Stored(client.kv) && Foreign(client.kv) == old(Foreign(client.kv))
        && ViewOf(client.kv) == NetworkView(old(ViewOf(client.kv)), cfg, cid, nic, host, gw)
        && r.value == PodNic(cfg, nic, host, gw)
      ensures Kept(old(client.kv), client.kv, cfg.node)
      ensures client.reliableWrites ==>
        FirstFitOr(cfg, old(ViewOf(client.kv))[Addresses(cfg.node)], host, r)
      ensures r != Err(NamespaceInUse) && (r == Err(NoAddress) ==> client.kv == old(client.kv))
    {
      hide ViewOf, Stored, Foreign, KeyText, RenderCidr, RenderQuad, ParseAddr, TextsOf, HostAddress, OthersKept,
           FirstFree, RouteValue, NetworkWritten, SameBut, WithPrefix, NetworkKeys, TextAt, NodeNetwork, Token,
           HostCount, ValidState, Image, NetworkView, Changed;
      ghost var kv0 := client.kv;
      ViewTotal(kv0);
      SameKept(kv0, cfg.node);
      var addr;
      addr, host := AllocateHost();
      if addr.None? { return Err(NoAddress), 0; }
      ghost var kv1 := client.kv;
      ViewTotal(kv1);
      ChangedKept(kv0, kv1, Addresses(cfg.node), ViewOf(kv0)[Addresses(cfg.node)] + [addr.value], cfg.node);
      HostReadsBack(cfg, host);
      var parsed := ParseAddr(addr.value);
      var ok := storage.AddAddr(cfg.node, cid, nic, RenderCidr(parsed.value));
      if !ok { return Err(StoreFailed), host; }
      ghost var kv2 := client.kv;
      ViewTotal(kv2);
      ChangedKept(kv1, kv2, Addrs(cfg.node, cid, nic), ViewOf(kv1)[Addrs(cfg.node, cid, nic)] + [addr.value], cfg.node);
      KeptTrans(kv0, kv1, kv2, cfg.node);
      var route := Route("", RenderQuad(gateway.value.addr), nic);
      RouteText(cfg, gw, nic);
      ok := storage.AddRoute(cfg.node, cid, nic, route);
      if !ok { return Err(StoreFailed), host; }
      NetworkSteps(kv0, kv1, kv2, client.kv, cfg, cid, nic, host, gw);
      NetworkTexts(kv0, client.kv, cfg, cid, nic, host, gw);
      HostText(cfg, gw);
      r := Ok(NicObj(nic, [parsed.value], [route]));
    }

    /** The first writes of the creating branch of `getKubernetesNic`. */
    method RecordPod(cid: Name, netns: string, nic: Name) returns (ok: bool)
      requires Wired() && Stored(client.kv) && IsNetns(netns)
      modifies client`kv, client`lost
      ensures ok ==>
        && Stored(client.kv) && Foreign(client.kv) == old(Foreign(client.kv))
        && ViewOf(client.kv) == RecordView(old(ViewOf(client.kv)), cfg, cid, netns, nic)
        && RecordWritten(old(client.kv), client.kv, cfg.node, cid, netns, ShortNetns(netns), nic,
                         TextAt(old(client.kv), "/ohno/node/" + cfg.node + "/pod"))
        && SameBut(old(client.kv), client.kv, RecordKeys(cfg.node, cid, ShortNetns(netns)))
      ensures Kept(old(client.kv), client.kv, cfg.node)
      ensures client.reliableWrites ==> ok
    {
      hide ViewOf, Stored, Foreign, KeyText, OthersKept, TextsOf, RecordWritten, SameBut, RecordKeys;
      ghost var kv0 := client.kv;
      ViewTotal(kv0);
      ghost var read;
      ok, read := storage.AddPod(cfg.node, netns, cid);
      ghost var kv1 := client.kv;
      ViewTotal(kv1);
      PodAddedKept(kv0, kv1, cfg.node, ShortNetns(netns), cid);
      if !ok { return; }
      ok := storage.AddNetns(cfg.node, cid, netns);
      if !ok { return; }
      ghost var kv2 := client.kv;
      ViewTotal(kv2);
      ChangedKept(kv1, kv2, NetnsOf(cfg.node, cid), [netns], cfg.node);
      KeptTrans(kv0, kv1, kv2, cfg.node);
      ok := storage.AddNic(cfg.node, cid, nic);
      if !ok { return; }
      ChangedKept(kv2, client.kv, Nics(cfg.node, cid), ViewOf(kv2)[Nics(cfg.node, cid)] + [nic], cfg.node);
      KeptTrans(kv0, kv2, client.kv, cfg.node);
      RecordTexts(kv0, client.kv, cfg, cid, netns, nic);
    }

    /** The creating branch of `getKubernetesNic`, for a container's first device or another one: a
        namespace that belongs to another pod is refused before anything is written. */
    method CreateNic(cid: Name, netns: string, nic: Name, ghost st: NodeState)
      returns (r: Result<NicObj, CniError>, ghost host: nat)
      requires Wired() && Stored(client.kv) && IsNetns(netns) && cid != HOST
      requires ValidState(cfg, st) && st.Present? && Listed(st) && Matches(ViewOf(client.kv), cfg, st)
      requires gateway == Some(HostCidr(cfg, st.gateway))
      modifies client`kv, client`lost
      ensures r.Ok? ==>
        && HostFree(cfg, st, host)
        && Stored(client.kv) && Foreign(client.kv) == old(Foreign(client.kv))
        && ViewOf(client.kv) == PodView(old(ViewOf(client.kv)), cfg, cid, Pod(netns, nic, host), st.gateway)
        && r.value == PodNic(cfg, nic, host, st.gateway)
      ensures r == Err(NamespaceInUse) <==> NamespaceOfOther(st, netns, cid)
      ensures r == Err(NamespaceInUse) ==> client.kv == old(client.kv)
      ensures r == Err(NoAddress) ==> ViewOf(client.kv) == RecordView(old(ViewOf(client.kv)), cfg, cid, netns, nic)
      ensures Kept(old(client.kv), client.kv, cfg.node)
      ensures client.reliableWrites && !NamespaceOfOther(st, netns, cid) ==>
        FirstFitOr(cfg, Image(cfg, st, Addresses(cfg.node)), host, r)
    {
      hide ViewOf, Stored, Foreign, KeyText, TextsOf, HostAddress, OthersKept, FirstFree, NetworkView, RecordView,
           Image, ValidState, NamespaceOfOther, NetworkWritten, RecordWritten, SameBut, NetworkKeys, RecordKeys;
      ghost var kv0 := client.kv;
      ViewTotal(kv0);
      SameKept(kv0, cfg.node);
      host := 0;
      OwnerRead(cfg, st, ViewOf(kv0), netns, cid);
      var owner := storage.GetPod(cfg.node, netns);
      if owner != "" && owner != cid { return Err(NamespaceInUse), host; }
      var ok := RecordPod(cid, netns, nic);
      if !ok { return Err(StoreFailed), host; }
      ghost var kv1 := client.kv;
      ViewTotal(kv1);
      RecordKeeps(ViewOf(kv0), cfg, st, cid, netns, nic);
      ValidListed(cfg, st);
      r, host := ConfigPodNetwork(cid, nic, st.gateway);
      KeptTrans(kv0, kv1, client.kv, cfg.node);
      if r.Ok? { FreshHost(cfg, st, host); }
    }

    /** A container whose device is known: nothing is written, and the stored address must lie in the
        configured subnet. */
    method Confirm(obj: NicObj) returns (r: Result<CniResult, CniError>)
      requires Wired() && gateway.Some? && gateway.value.Valid() && forall a <- obj.addrs :: a.Valid()
      ensures r == if obj.addrs == [] then Err(NoAddress)
                   else if !IsSubnetOf(obj.addrs[0], cfg.subnet) then Err(OutsideSubnet)
                   else Ok(CniResult(RenderQuad(obj.addrs[0].addr) + "/" + Dec(obj.addrs[0].prefix),
                                     RenderQuad(gateway.value.addr)))
      ensures r.Ok? ==> ParseAddr(r.value.address) == Some(obj.addrs[0])
    {
      hide RenderQuad, ParseAddr, Dec, ParseNetwork, TextsOf, NodeNetwork, IsSubnetOf;
      if obj.addrs == [] { return Err(NoAddress); }
      var addr := obj.addrs[0];
      assert addr in obj.addrs;
      RenderedReadsBack(addr);
      var network := ParseNetwork(RenderCidr(addr)).value;
      if !IsSubnetOf(network, cfg.subnet) { return Err(OutsideSubnet); }
      r := Ok(Report(addr, gateway.value));
    }

    /** ADD's branch for a device that is not known, on a node that exists. */
    method AddPod(cid: Name, netns: string, nic: Name, ghost st: NodeState)
      returns (r: Result<CniResult, CniError>, ghost host: nat)
      requires Wired() && Stored(client.kv) && IsNetns(netns) && cid != HOST
      requires ValidState(cfg, st) && st.Present? && Listed(st) && Matches(ViewOf(client.kv), cfg, st)
      requires gateway == Some(HostCidr(cfg, st.gateway)) && cluster == Some(NodeImage(cfg, st))
      modifies client`kv, client`lost, `cluster
      ensures Kept(old(client.kv), client.kv, cfg.node)
      ensures r.Ok? ==>
        && HostFree(cfg, st, host)
        && ViewOf(client.kv) == PodView(old(ViewOf(client.kv)), cfg, cid, Pod(netns, nic, host), st.gateway)
        && r.value == ResultFor(cfg, host, st.gateway)
        && cluster == Some(WithDevice(NodeImage(cfg, st), cid, PodNic(cfg, nic, host, st.gateway)))
      ensures r == Err(NoAddress) ==> ViewOf(client.kv) == RecordView(old(ViewOf(client.kv)), cfg, cid, netns, nic)
      ensures r == Err(NamespaceInUse) <==> NamespaceOfOther(st, netns, cid)
      ensures r == Err(NamespaceInUse) ==> client.kv == old(client.kv)
      ensures client.reliableWrites && !NamespaceOfOther(st, netns, cid) ==>
        FirstFitOr(cfg, Image(cfg, st, Addresses(cfg.node)), host, r)
      ensures client.reliableWrites ==>
        (Distinct(ViewOf(client.kv)[Pods(cfg.node)]) <==> !Knows(st, cid) || NamespaceOfOther(st, netns, cid))
    {
      hide ViewOf, Stored, Foreign, KeyText, TextsOf, HostAddress, OthersKept, FirstFree, PodView, Image, ValidState,
           Matches, RenderCidr, RenderQuad, NamespaceOfOther, Listed, NodeImage, WithDevice, RecordView, Distinct;
      ghost var kv0 := client.kv;
      ViewTotal(kv0);
      ViewTotal(client.kv);
      var made;
      made, host := CreateNic(cid, netns, nic, st);
      SecondDeviceExact(ViewOf(kv0), cfg, st, cid, Pod(netns, nic, host));
      if made.Err? { return Err(made.error), host; }
      HostReadsBack(cfg, host);
      cluster := Some(WithDevice(cluster.value, cid, made.value));
      r := Ok(Report(made.value.addrs[0], gateway.value));
    }

    /** CNI ADD. `st` is the node's state before the call; a node that does not exist is created first,
        with host `gw` as its gateway, and a device that is not known gets the address of `host`. */
    method Add(cid: Name, netns: string, nic: Name, ghost st: NodeState)
      returns (r: Result<CniResult, CniError>, ghost next: NodeState, ghost host: nat, ghost gw: nat)
      requires Wired() && StoreFor(client.kv, cfg, st) && IsNetns(netns) && cid != HOST
      requires st.Present? ==> GatewayFits(st)
      modifies this, client`kv, client`lost
      ensures Kept(old(client.kv), client.kv, cfg.node)
      ensures gw >= 1 && (st.Present? ==> gw == st.gateway) && (client.reliableWrites && st.Absent? ==> gw == 1)
      // What is reported is the address of a host and the gateway's, and it is what the store has.
      ensures r.Ok? ==> AddRecorded(old(client.kv), client.kv, cfg, st, cid, netns, nic, host, gw, r.value)
      ensures r.Ok? && !KnownDevice(st, cid, nic) && client.reliableWrites ==> AllListedBelow(client.kv, cfg, host)
      // A container's first device, or the one it has: a step of the node.
      ensures r.Ok? && Ordinary(st, cid, nic) ==>
        && Added(cfg, st, cid, netns, nic, next) && StoreFor(client.kv, cfg, next)
        && r.value == ResultOf(cfg, next, cid)
        && cluster == Some(NodeImage(cfg, next)) && gateway == Some(HostCidr(cfg, next.gateway))
        && NodeRecorded(client.kv, cfg, gw, next.vtep)
      ensures r.Ok? && client.reliableWrites && Ordinary(st, cid, nic) ==>
        AddStep(old(client.kv), client.kv, cfg, st, cid, netns, nic, next)
      // The device it has: no write, and the result tells whether the address is where it should be.
      ensures KnownDevice(st, cid, nic) ==>
        && client.kv == old(client.kv) && (r.Ok? <==> IsSubnetOf(HostCidr(cfg, st.pods[cid].host), cfg.subnet))
        && (r.Err? ==> r == Err(OutsideSubnet))
      // Any device that is not known, also a second one of a known container.
      ensures r.Ok? && !KnownDevice(st, cid, nic) ==>
        DeviceGiven(old(ViewOf(client.kv)), ViewOf(client.kv), cfg, st, cid, netns, nic, host, gw, r.value)
      ensures !KnownDevice(st, cid, nic) && (st.Present? || client.reliableWrites) ==>
        && DeviceRefused(old(ViewOf(client.kv)), ViewOf(client.kv), cfg, st, cid, netns, nic, gw, r)
        && RefusalRecorded(old(client.kv), client.kv, cfg, st, cid, netns, nic, r)
      ensures client.reliableWrites && !KnownDevice(st, cid, nic) && !NamespaceOfOther(st, netns, cid) ==>
        FirstFitOr(cfg, Used(cfg, st), host, r)
      // The pod list names every pod once, unless a known container gets another device.
      ensures client.reliableWrites ==>
        (Distinct(ViewOf(client.kv)[Pods(cfg.node)]) <==>
         !Knows(st, cid) || KnownDevice(st, cid, nic) || NamespaceOfOther(st, netns, cid))
    {
      hide ViewOf, Stored, Foreign, KeyText, TextsOf, HostAddress, OthersKept, FirstFree, Image, ValidState, Matches,
           RenderCidr, RenderQuad, NamespaceFree, NamespaceOfOther, Listed, NodeImage, IsSubnetOf, NewPod, Added,
           CreateView, PodView, RecordView, HostFree, Distinct, ResultFor, WithDevice, AddRecorded,
           AllListedBelow, NodeRecorded, RefusalRecorded;
      ghost var kv0 := client.kv;
      ViewTotal(kv0);
      SameKept(kv0, cfg.node);
      ValidListed(cfg, st);
      KnownHasNetns(cfg, st, cid);
      next, host, gw := st, 0, if st.Present? then st.gateway else 1;
      cluster := GetKubernetesCluster(st);
      if cluster.None? {
        var made;
        made, gw := CreateNode();
        if made.Err? {
          RefusalNew(kv0, client.kv, cfg, st, cid, netns, nic, Err(made.error));
          return Err(made.error), next, host, 1;
        }
        ghost var kv1 := client.kv;
        ViewTotal(kv1);
        CreateMatches(ViewOf(kv0), cfg, gw);
        ghost var base := Created(gw);
        ValidListed(cfg, base);
        CreatedUsed(cfg);
        SameNamespaces(gw, netns, cid);
        r, host := AddPod(cid, netns, nic, base);
        KeptTrans(kv0, kv1, client.kv, cfg.node);
        RefusalNew(kv0, client.kv, cfg, st, cid, netns, nic, r);
        if r.Ok? { AddTexts(cfg, kv0, kv1, client.kv, st, base, cid, netns, nic, host); }
        if r.Ok? && SEPARATOR !in nic {
          next := PodAdded(kv1, client.kv, cfg, base, cid, netns, nic, host);
          NewPodAdded(cfg, st, base, cid, netns, nic, next);
          NodeStateTexts(cfg, client.kv, next);
        }
        return;
      }
      var pods := cluster.value.pods;
      KnownInCluster(cfg, st, cid);
      if cid in pods && nic in pods[cid].nics {
        KnownAdded(cfg, st, cid, netns, nic);
        SecondDeviceExact(ViewOf(kv0), cfg, st, cid, Pod(netns, nic, host));
        RepeatTexts(cfg, kv0, st, cid, netns, host);
        NodeStateTexts(cfg, kv0, st);
        r := Confirm(pods[cid].nics[nic]);
        return;
      }
      r, host := AddPod(cid, netns, nic, st);
      RefusalTexts(kv0, client.kv, cfg, st, cid, netns, nic, gw, r);
      if r.Ok? { AddTexts(cfg, kv0, kv0, client.kv, st, st, cid, netns, nic, host); }
      if r.Ok? && !Knows(st, cid) && SEPARATOR !in nic {
        next := PodAdded(kv0, client.kv, cfg, st, cid, netns, nic, host);
        NewPodAdded(cfg, st, st, cid, netns, nic, next);
        NodeStateTexts(cfg, client.kv, next);
      }
    }

    // -------------------------------------------------------------- removing a pod

    /** The stores of `delKubernetesNic`. In VXLAN mode the node's VTEP goes with any device. */
    method DelDevice(pod: Name, nic: Name) returns (ok: bool)
      requires Wired() && Stored(client.kv)
      modifies client`kv, client`lost
      ensures Kept(old(client.kv), client.kv, cfg.node)
      ensures NamespacesKept(old(ViewOf(client.kv)), ViewOf(client.kv), cfg.node)
      ensures client.reliableWrites ==>
        ok && ViewOf(client.kv) == DelNicView(old(ViewOf(client.kv)), cfg, pod, nic, "", false)
    {
      hide ViewOf, Stored, Foreign, KeyText, OthersKept, TextsOf, NamespacesKept, Kept;
      ghost var kv0 := client.kv;
      ViewTotal(kv0);
      SameKept(kv0, cfg.node);
      SameNamespacesKept(ViewOf(kv0), cfg.node);
      ok := storage.DelAddr(cfg.node, pod, nic);
      if !ok { return; }
      ghost var kv1 := client.kv;
      ViewTotal(kv1);
      DeviceStep(kv0, kv0, kv1, Addrs(cfg.node, pod, nic), [], cfg.node);
      ok := storage.DelRoute(cfg.node, pod, nic);
      if !ok { return; }
      ghost var kv2 := client.kv;
      ViewTotal(kv2);
      DeviceStep(kv0, kv1, kv2, Routes(cfg.node, pod, nic), [], cfg.node);
      ok := storage.DelNic(cfg.node, pod, nic);
      if !ok { return; }
      ghost var kv3 := client.kv;
      ViewTotal(kv3);
      DeviceStep(kv0, kv2, kv3, Nics(cfg.node, pod), Without(ViewOf(kv2)[Nics(cfg.node, pod)], nic), cfg.node);
      if cfg.mode.Vxlan? {
        ok := storage.DelVtep(cfg.node);
        if !ok { return; }
        ViewTotal(client.kv);
        DeviceStep(kv0, kv3, client.kv, Vtep(cfg.node), [], cfg.node);
      }
    }

    /** The address is released, unless the device is the underlay; that this failed is only logged. */
    method Release(pod: Name, nic: Name, addr: string)
      requires Wired() && Stored(client.kv) && (Releases(cfg, pod, nic) ==> addr != "")
      modifies client`kv, client`lost
      ensures Kept(old(client.kv), client.kv, cfg.node)
      ensures NamespacesKept(old(ViewOf(client.kv)), ViewOf(client.kv), cfg.node)
      ensures client.reliableWrites ==>
        ViewOf(client.kv) == Freed(old(ViewOf(client.kv)), cfg, pod, nic, addr)
    {
      hide ViewOf, Stored, Foreign, KeyText, OthersKept, TextsOf;
      ghost var kv0 := client.kv;
      ViewTotal(kv0);
      SameKept(kv0, cfg.node);
      if !(pod == HOST && nic == cfg.underlay) {
        var released := ipam.ReleaseIp(cfg.node, addr);
        if released {
          ChangedKept(kv0, client.kv, Addresses(cfg.node), Without(ViewOf(kv0)[Addresses(cfg.node)], addr), cfg.node);
        }
      }
    }

    /** `delKubernetesNic`. */
    method DelNic(pod: PodObj, nic: Name) returns (ok: bool, result: PodObj)
      requires Wired() && Stored(client.kv)
      requires nic in pod.nics ==>
        ValidNic(pod.nics[nic]) && (Releases(cfg, pod.name, nic) ==> AddressOf(pod.nics[nic]) != "")
      modifies client`kv, client`lost
      ensures Kept(old(client.kv), client.kv, cfg.node)
      ensures NamespacesKept(old(ViewOf(client.kv)), ViewOf(client.kv), cfg.node)
      ensures result == pod.(nics := pod.nics - {nic})
      ensures nic !in pod.nics ==> ok && client.kv == old(client.kv)
      ensures client.reliableWrites ==> ok
      ensures client.reliableWrites && nic in pod.nics ==>
        ViewOf(client.kv) == NicGoneView(old(ViewOf(client.kv)), cfg, pod, nic)
    {
      hide ViewOf, Stored, Foreign, KeyText, OthersKept, TextsOf, RenderCidr;
      ghost var kv0 := client.kv;
      ViewTotal(kv0);
      SameKept(kv0, cfg.node);
      ok, result := true, pod.(nics := pod.nics - {nic});
      if nic !in pod.nics { return; }
      Release(pod.name, nic, AddressOf(pod.nics[nic]));
      ghost var kv1 := client.kv;
      ok := DelDevice(pod.name, nic);
      KeptTrans(kv0, kv1, client.kv, cfg.node);
    }

    /** The stores of `delKubernetesPod`. */
    method DelPod(pod: Name, ghost netns: string) returns (ok: bool)
      requires Wired() && Stored(client.kv) && IsNetns(netns)
      requires ViewOf(client.kv)[NetnsOf(cfg.node, pod)] == [netns]
      requires ViewOf(client.kv)[PodIn(cfg.node, ShortNetns(netns))] == [pod]
      modifies client`kv, client`lost
      ensures Kept(old(client.kv), client.kv, cfg.node)
      ensures pod != HOST && ShortNetns(netns) != HOST ==> RootKept(old(ViewOf(client.kv)), ViewOf(client.kv), cfg.node)
      ensures client.reliableWrites ==>
        ok && ViewOf(client.kv) == DelPodView(old(ViewOf(client.kv)), cfg, pod, ShortNetns(netns))
    {
      hide ViewOf, Stored, Foreign, KeyText, OthersKept, TextsOf;
      ghost var kv0 := client.kv;
      ViewTotal(kv0);
      SameKept(kv0, cfg.node);
      var name := storage.GetNetns(cfg.node, pod);
      assert name == netns;
      ok := storage.DelNetns(cfg.node, pod);
      if !ok { return; }
      ghost var kv1 := client.kv;
      ViewTotal(kv1);
      ChangedKept(kv0, kv1, NetnsOf(cfg.node, pod), [], cfg.node);
      if name != "" {
        ok := storage.DelPod(cfg.node, name);
        PodRemovedKept(kv1, client.kv, cfg.node, ShortNetns(netns), pod);
        KeptTrans(kv0, kv1, client.kv, cfg.node);
      }
    }

    /** The devices of the root namespace. */
    method TeardownDevices(host: PodObj, ghost st: NodeState) returns (ok: bool)
      requires Wired() && Stored(client.kv) && ValidState(cfg, st) && st.Present? && host == PodImage(cfg, st, HOST)
      modifies client`kv, client`lost
      ensures Kept(old(client.kv), client.kv, cfg.node)
      ensures NamespacesKept(old(ViewOf(client.kv)), ViewOf(client.kv), cfg.node)
      ensures client.reliableWrites ==>
        ok && ViewOf(client.kv) == DevicesGoneView(old(ViewOf(client.kv)), cfg, st.gateway)
    {
      hide ViewOf, Stored, Foreign, KeyText, OthersKept, TextsOf, RenderCidr, PodImage, DelNicView, ValidState;
      ghost var kv0 := client.kv;
      ViewTotal(kv0);
      HostDevices(cfg, st);
      var pod;
      ok, pod := DelNic(host, cfg.bridge);
      if !ok { return; }
      ghost var kv1 := client.kv;
      ViewTotal(kv1);
      ok, pod := DelNic(pod, NAME_VXLAN);
      KeptTrans(kv0, kv1, client.kv, cfg.node);
      if !ok { return; }
      ghost var kv2 := client.kv;
      ViewTotal(kv2);
      ok, pod := DelNic(pod, cfg.underlay);
      KeptTrans(kv0, kv2, client.kv, cfg.node);
    }

    /** The end of a DEL that removed the last pod: the root namespace goes, and the subnet is
        returned. */
    method Teardown(host: PodObj, subnet: Cidr, ghost st: NodeState)
      requires Wired() && Stored(client.kv) && ValidState(cfg, st) && st.Present?
      requires host == PodImage(cfg, st, HOST) && subnet == cfg.cidr
      requires ViewOf(client.kv)[NetnsOf(cfg.node, HOST)] == [HOST]
      requires ViewOf(client.kv)[PodIn(cfg.node, HOST)] == [HOST]
      modifies client`kv, client`lost
      ensures Kept(old(client.kv), client.kv, cfg.node)
      ensures client.reliableWrites ==> ViewOf(client.kv) == NodeGoneView(old(ViewOf(client.kv)), cfg, st.gateway)
    {
      hide ViewOf, Stored, Foreign, KeyText, OthersKept, TextsOf, RenderCidr, PodImage, DevicesGoneView, DelPodView,
           ValidState;
      ghost var kv0 := client.kv;
      ViewTotal(kv0);
      SubnetText(cfg);
      var ok := TeardownDevices(host, st);
      if !ok { return; }
      ghost var kv1 := client.kv;
      ViewTotal(kv1);
      BothSpellings(HOST);
      ok := DelPod(HOST, HOST);
      KeptTrans(kv0, kv1, client.kv, cfg.node);
      if !ok { return; }
      ghost var kv2 := client.kv;
      ViewTotal(kv2);
      ok := ipam.ReleaseSubnet(cfg.node, RenderCidr(subnet));
      SubnetReleasedKept(kv2, client.kv, cfg.node, RenderCidr(subnet));
      KeptTrans(kv0, kv2, client.kv, cfg.node);
    }

    /** The stores of a DEL for a pod the node has. A device the pod does not have is skipped. */
    method RemovePod(pod: PodObj, cid: Name, nic: Name, ghost st: NodeState) returns (ok: bool)
      requires Wired() && StoreFor(client.kv, cfg, st) && Knows(st, cid)
      requires var dev := st.pods[cid].nic;
               pod == PodObj(cid, map[dev := PodNic(cfg, dev, st.pods[cid].host, st.gateway)])
      modifies client`kv, client`lost
      ensures Kept(old(client.kv), client.kv, cfg.node)
      ensures RootKept(old(ViewOf(client.kv)), ViewOf(client.kv), cfg.node)
      ensures client.reliableWrites ==>
        ok && ViewOf(client.kv) == RemovedView(old(ViewOf(client.kv)), cfg, cid, st.pods[cid], nic)
    {
      hide ViewOf, Stored, Foreign, KeyText, OthersKept, TextsOf, RenderCidr, DelNicView, DelPodView, ValidState,
           PodNic;
      ghost var kv0 := client.kv;
      ViewTotal(kv0);
      KnownPod(cfg, st, cid, ViewOf(kv0));
      PodDevice(cfg, st, cid);
      var left;
      ok, left := DelNic(pod, nic);
      if !ok { return; }
      ghost var kv1 := client.kv;
      ViewTotal(kv1);
      ok := DelPod(cid, st.pods[cid].netns);
      KeptTrans(kv0, kv1, client.kv, cfg.node);
    }

    /** CNI DEL. `st` is the node's state before the call. An error ends the call where it is. With
        the device the ADD named it is a step of the node. With another one the pod's records go all
        the same, but not its device's: the pod's address stays listed. */
    method Del(cid: Name, nic: Name, ghost st: NodeState)
      requires Wired() && StoreFor(client.kv, cfg, st) && cid != HOST
      requires st.Present? ==> GatewayFits(st)
      modifies this, client`kv, client`lost
      ensures Kept(old(client.kv), client.kv, cfg.node)
      ensures !Knows(st, cid) ==> client.kv == old(client.kv)
      ensures client.reliableWrites && (Knows(st, cid) ==> st.pods[cid].nic == nic) ==>
        DelStep(old(client.kv), client.kv, cfg, st, cid)
      ensures client.reliableWrites && Knows(st, cid) ==>
        && IsNetns(st.pods[cid].netns)
        && ViewOf(client.kv) == GoneView(old(ViewOf(client.kv)), cfg, st, cid, nic)
        && (cfg.texts.host(st.pods[cid].host) in ViewOf(client.kv)[Addresses(cfg.node)] <==> st.pods[cid].nic != nic)
      ensures client.reliableWrites && Knows(st, cid) ==> PodGone(old(client.kv), client.kv, cfg, st, cid, nic)
      ensures client.reliableWrites && Knows(st, cid) && Deleted(st, cid).Present? ==>
        cluster == Some(NodeImage(cfg, Deleted(st, cid)))
    {
      hide ViewOf, Stored, Foreign, KeyText, OthersKept, TextsOf, RenderCidr, HostAddress, RenderQuad, Image,
           ValidState, Matches, Listed, NodeImage, WithoutPod, RemovedView, NodeGoneView, PodImage, PodGone;
      ghost var kv0 := client.kv;
      ViewTotal(kv0);
      SameKept(kv0, cfg.node);
      cluster := GetKubernetesCluster(st);
      if cluster.None? { return; }
      var node := cluster.value;
      KnownInCluster(cfg, st, cid);
      if cid !in node.pods { return; }
      KnownPod(cfg, st, cid, ViewOf(kv0));
      var ok := RemovePod(node.pods[cid], cid, nic, st);
      if !ok { return; }
      ghost var kv1 := client.kv;
      ViewTotal(kv1);
      HostRecorded(cfg, st, ViewOf(kv0));
      ghost var next := WithoutPod(st, cid);
      node := node.(pods := node.pods - {cid});
      cluster := Some(node);
      WithoutPodImage(cfg, st, cid);
      WithoutPodStays(cfg, st, cid);
      ValidListed(cfg, next);
      RootInCluster(cfg, next);
      if |node.pods| == 1 {
        Teardown(node.pods[HOST], node.subnet, next);
        KeptTrans(kv0, kv1, client.kv, cfg.node);
      }
      if client.reliableWrites {
        AddressLeft(ViewOf(kv0), cfg, st, cid, nic);
        if nic == st.pods[cid].nic { GoneIsStep(kv0, client.kv, cfg, st, cid); }
        DelTexts(kv0, client.kv, cfg, st, cid, nic);
      }
    }
  }
}
