/** What the CNI calls on all nodes make of one node's routes: the stores that the runs of Lifecycle
    reach are the stores the reconcilers read, so which nodes a tick caches is a matter of the calls. */
module Fabric {
  import opened Text
  import opened Wrappers
  import opened Keys
  import opened Etcd
  import opened Ipv4
  import opened Subnet
  import opened Storage
  import opened NodeModel
  import opened NodeStore
  import opened Steps
  import opened ClusterObject
  import opened Runs
  import opened Lifecycle
  import opened Center
  import H = HostGw
  import V = Vxlan

  /** A run over nodes none of which exists at its start. */
  ghost predicate Fresh(cfgs: Cluster, base: seq<string>, ws: seq<World>, cs: seq<Call>) {
    && |ws| == |cs| + 1 && ValidCluster(cfgs) && Run(cfgs, ws, cs) && Inv(cfgs, base, ws[0])
    && forall n <- cfgs :: ws[0].nodes[n].Absent?
  }

  /** The store a run ends with. */
  ghost function EndStore(ws: seq<World>): map<string, string>
    requires ws != []
  {
    ws[|ws| - 1].kv
  }

  // ---------------------------------------------------------------- host gateway

  /** A node's subnet is persisted exactly while the calls leave it a pod. */
  lemma {:induction false} PersistedExact(cfgs: Cluster, base: seq<string>, ws: seq<World>, cs: seq<Call>, n: Name)
    requires Fresh(cfgs, base, ws, cs) && n in cfgs
    ensures H.Persisted(EndStore(ws), n) <==> Live(cs, n) != []
  {
    hide ValidState, Image, Matches, ViewOf, Stored, Listing, Step, Disjoint, TextsOf, KeyText, Read, ParseNetwork,
         NodeNetwork, Listed;
    RunKeepsInv(cfgs, base, ws, cs, |cs|);
    LiveIsOrder(cfgs, base, ws, cs, n);
    SubnetReadsBack(cfgs[n], ws[|cs|].nodes[n], ws[|cs|].kv);
  }

  /** A failure-free tick after a run of calls: the cache is the old cache and the cluster without this
      node, as far as the calls leave a node pods, and it is empty when they leave this node none. */
  method HostGwTick(gw: H.HostGw, current: Name, cluster: Infos, ghost cfgs: Cluster, ghost base: seq<string>,
                    ghost ws: seq<World>, ghost cs: seq<Call>)
    requires gw.Valid() && forall n <- cluster :: cluster[n].internalIp != ""
    requires gw.ipam.client.reliableReads && gw.nic.kernel.addsSucceed && gw.nic.kernel.delsSucceed
    requires Fresh(cfgs, base, ws, cs) && gw.ipam.client.kv == EndStore(ws)
    requires current in cfgs && cluster.Keys <= cfgs.Keys && gw.cache.Keys <= cfgs.Keys
    modifies gw`cache, gw.nic`routes, gw.nic.kernel`routes
    ensures gw.cache ==
      map n: Name | n in old(gw.cache).Keys + (cluster.Keys - {current}) && Live(cs, current) != [] && Live(cs, n) != []
        :: if n in old(gw.cache) then old(gw.cache)[n] else cluster[n]
  {
    hide H.Ticked, H.Complete, H.Persisted, Fresh, EndStore, Live;
    ghost var before, routes, kv := gw.cache, gw.nic.kernel.routes, gw.ipam.client.kv;
    ghost var added, removed;
    added, removed := gw.EventHandler(current, cluster);
    H.TickSettles(kv, current, cluster, before, routes, added, removed, gw.cache, gw.nic.kernel.routes);
    forall n <- cfgs
      ensures H.Persisted(kv, n) <==> Live(cs, n) != []
    {
      PersistedExact(cfgs, base, ws, cs, n);
    }
  }

  // ---------------------------------------------------------------- VXLAN

  /** The calls leave a node its VTEP. */
  ghost predicate Left(cfgs: Cluster, cs: seq<Call>, n: Name) {
    n in cfgs && cfgs[n].mode.Vxlan? && VtepLeft(cs, n)
  }

  lemma VtepReadsBack(addr: nat, mac: string)
    requires addr < ADDRESSES && Token(mac) && SEPARATOR !in mac
    ensures DecodeVtep(VtepValue(RenderQuad(addr), mac)) == Some((RenderQuad(addr), mac)) && RenderQuad(addr) != ""
  {
    hide RenderQuad;
    QuadHasNoSlash(addr);
    VtepValueExact(RenderQuad(addr), mac);
  }

  lemma NoVtepReads(kv: map<string, string>, n: Name)
    requires Stored(kv) && Vtep(n) in ViewOf(kv) && ViewOf(kv)[Vtep(n)] == []
    ensures V.StoredVtep(kv, n) == V.Endpoint("", "") && DecodeVtep(Read(kv, KeyText(Vtep(n)))).Some?
  {
    hide Stored, KeyText, Read;
    ReadEntry(kv, Vtep(n));
  }

  lemma VtepReads(kv: map<string, string>, cfg: Config)
    requires Stored(kv) && cfg.Faithful() && Vtep(cfg.node) in ViewOf(kv)
    requires ViewOf(kv)[Vtep(cfg.node)] == [cfg.texts.vtep]
    ensures V.StoredVtep(kv, cfg.node) == V.Endpoint(RenderQuad(cfg.cidr.addr), cfg.mac)
    ensures DecodeVtep(Read(kv, KeyText(Vtep(cfg.node)))).Some? && RenderQuad(cfg.cidr.addr) != "" && cfg.mac != ""
  {
    hide Stored, KeyText, Read, RenderQuad, DecodeVtep, ViewOf;
    ReadEntry(kv, Vtep(cfg.node));
    VtepReadsBack(cfg.cidr.addr, cfg.mac);
    assert Join([cfg.texts.vtep], COMMA) == cfg.texts.vtep;
  }

  /** The endpoint a reconciler reads for a node, in terms of the calls. */
  lemma StoredExact(cfgs: Cluster, base: seq<string>, ws: seq<World>, cs: seq<Call>, n: Name)
    requires Fresh(cfgs, base, ws, cs) && n in cfgs
    ensures DecodeVtep(Read(EndStore(ws), KeyText(Vtep(n)))).Some?
    ensures V.StoredVtep(EndStore(ws), n) ==
      if Left(cfgs, cs, n) then V.Endpoint(RenderQuad(cfgs[n].cidr.addr), cfgs[n].mac) else V.Endpoint("", "")
    ensures Left(cfgs, cs, n) ==> RenderQuad(cfgs[n].cidr.addr) != "" && cfgs[n].mac != ""
  {
    hide ValidState, Matches, ViewOf, Stored, Listing, Step, Disjoint, TextsOf, KeyText, Read, RenderQuad, DecodeVtep,
         VtepLeft, NodeNetwork, Token, V.StoredVtep;
    RunKeepsInv(cfgs, base, ws, cs, |cs|);
    VtepTraced(cfgs, base, ws, cs, n);
    var kv := ws[|cs|].kv;
    VtepList(cfgs[n], ViewOf(kv), ws[|cs|].nodes[n]);
    if Left(cfgs, cs, n) { VtepReads(kv, cfgs[n]); } else { NoVtepReads(kv, n); }
  }

  lemma VtepList(cfg: Config, v: View, st: NodeState)
    requires Listed(st) && Matches(v, cfg, st)
    ensures Vtep(cfg.node) in v && v[Vtep(cfg.node)] == if cfg.mode.Vxlan? && HasVtep(st) then [cfg.texts.vtep] else []
  {
    assert Vtep(cfg.node).Of(cfg.node);
  }

  /** No VTEP is stored for a node that is none of the run's. */
  ghost predicate OthersLack(cfgs: Cluster, kv: map<string, string>) {
    forall n: Name :: n !in cfgs ==> Vtep(n) in ViewOf(kv) && ViewOf(kv)[Vtep(n)] == []
  }

  /** The VXLAN devices of two nodes have different MACs. */
  ghost predicate MacsDiffer(cfgs: Cluster) {
    forall m <- cfgs, n <- cfgs :: m != n ==> cfgs[m].mac != cfgs[n].mac
  }

  /** Whose address and whose MAC it is. */
  ghost function OwnersOf(cfgs: Cluster): V.Owners
    requires ValidCluster(cfgs)
  {
    V.Owners((a: string) => AddrOwner(cfgs, a), (m: string) => MacOwner(cfgs, m))
  }

  ghost function AddrOwner(cfgs: Cluster, a: string): Name
  {
    if exists n: Name :: HasAddr(cfgs, n, a) then var n: Name :| HasAddr(cfgs, n, a); n else HOST
  }

  ghost function MacOwner(cfgs: Cluster, m: string): Name {
    if exists n: Name :: n in cfgs && cfgs[n].mac == m then var n: Name :| n in cfgs && cfgs[n].mac == m; n else HOST
  }

  ghost predicate HasAddr(cfgs: Cluster, n: Name, a: string) {
    n in cfgs && cfgs[n].cidr.Valid() && RenderQuad(cfgs[n].cidr.addr) == a
  }

  lemma AddrOwned(cfgs: Cluster, n: Name)
    requires ValidCluster(cfgs) && n in cfgs
    ensures cfgs[n].cidr.Valid() && AddrOwner(cfgs, RenderQuad(cfgs[n].cidr.addr)) == n
  {
    hide RenderQuad, Disjoint, TextsOf, Token;
    var a := RenderQuad(cfgs[n].cidr.addr);
    assert HasAddr(cfgs, n, a);
    var m := AddrOwner(cfgs, a);
    assert HasAddr(cfgs, m, a);
    if m != n {
      SameQuad(cfgs[m].cidr.addr, cfgs[n].cidr.addr);
      ApartAddrs(cfgs[m].cidr, cfgs[n].cidr);
    }
  }

  lemma SameQuad(a: nat, b: nat)
    requires a < ADDRESSES && b < ADDRESSES && RenderQuad(a) == RenderQuad(b)
    ensures a == b
  {
    hide RenderQuad, ParseQuad;
    ParseQuadExact(RenderQuad(a), a);
    ParseQuadExact(RenderQuad(a), b);
  }

  lemma ApartAddrs(c: Cidr, d: Cidr)
    requires c.Valid() && d.Valid() && Disjoint(c, d)
    ensures c.addr != d.addr
  {
    assert Contains(c, c.addr) && Contains(d, d.addr);
  }

  lemma CidrsValid(cfgs: Cluster)
    requires ValidCluster(cfgs)
    ensures forall n <- cfgs :: cfgs[n].cidr.Valid()
  {
    hide Disjoint, TextsOf, Token;
  }

  /** The stores that runs reach meet what the VXLAN reconciler needs: every stored VTEP has both
      fields, and no two nodes store the same address or MAC. */
  lemma EndpointsHold(cfgs: Cluster, base: seq<string>, ws: seq<World>, cs: seq<Call>)
    requires Fresh(cfgs, base, ws, cs) && MacsDiffer(cfgs) && Stored(ws[0].kv) && OthersLack(cfgs, ws[0].kv)
    ensures V.VtepsDecode(EndStore(ws)) && V.EndpointsOwned(OwnersOf(cfgs), EndStore(ws))
  {
    hide ViewOf, Stored, Run, Inv, ValidCluster, Disjoint, KeyText, Read, DecodeVtep, RenderQuad, V.StoredVtep, Left,
         MacOwner, AddrOwner;
    var kv := EndStore(ws);
    forall n: Name
      ensures DecodeVtep(Read(kv, KeyText(Vtep(n)))).Some?
      ensures V.StoredVtep(kv, n).addr != "" <==> V.StoredVtep(kv, n).mac != ""
      ensures V.StoredVtep(kv, n).addr != "" ==> V.Of(OwnersOf(cfgs), n, V.StoredVtep(kv, n))
    {
      if n in cfgs {
        StoredExact(cfgs, base, ws, cs, n);
        AddrOwned(cfgs, n);
        MacOwned(cfgs, n);
      } else {
        OthersStay(cfgs, base, ws, cs, n);
        NoVtepReads(kv, n);
      }
    }
  }

  lemma MacOwned(cfgs: Cluster, n: Name)
    requires MacsDiffer(cfgs) && n in cfgs
    ensures MacOwner(cfgs, cfgs[n].mac) == n
  {
  }

  lemma OthersStay(cfgs: Cluster, base: seq<string>, ws: seq<World>, cs: seq<Call>, n: Name)
    requires Fresh(cfgs, base, ws, cs) && Stored(ws[0].kv) && OthersLack(cfgs, ws[0].kv) && n !in cfgs
    ensures Stored(EndStore(ws)) && Vtep(n) in ViewOf(EndStore(ws)) && ViewOf(EndStore(ws))[Vtep(n)] == []
  {
    hide ViewOf, Stored, Step, Inv, ValidCluster;
    OthersOverRun(cfgs, base, ws, cs, |cs|, Vtep(n));
    ForeignOverRun(cfgs, ws, cs, |cs|);
  }

  /** One tick after a run of calls. A node that has lost its VTEP empties its cache, even if it still
      has pods, and takes away the entries of every node whose VTEP is the one it was installed with.
      A node that has it keeps and caches exactly the nodes that have theirs. */
  method VxlanTick(vxlan: V.Vxlan, current: Name, cluster: Infos, ghost cfgs: Cluster, ghost base: seq<string>,
                   ghost ws: seq<World>, ghost cs: seq<Call>)
    requires Fresh(cfgs, base, ws, cs) && MacsDiffer(cfgs) && Stored(ws[0].kv) && OthersLack(cfgs, ws[0].kv)
    requires vxlan.storage.client.kv == EndStore(ws) && vxlan.storage.client.reliableReads
    requires vxlan.nic.kernel.addsSucceed && vxlan.nic.kernel.delsSucceed
    requires (forall n <- cluster :: cluster[n].internalIp != "") && current in cfgs && current !in vxlan.cache
    requires cluster.Keys <= cfgs.Keys && vxlan.cache.Keys <= cfgs.Keys
    requires V.AllInstalled(OwnersOf(cfgs), vxlan.Now(), vxlan.cache, vxlan.at)
    modifies vxlan`cache, vxlan`at, vxlan.nic`routes, vxlan.nic`neighs, vxlan.nic`fdbs, vxlan.nic.kernel`routes,
             vxlan.nic.kernel`neighs, vxlan.nic.kernel`fdbs
    ensures V.AllInstalled(OwnersOf(cfgs), vxlan.Now(), vxlan.cache, vxlan.at)
    ensures !Left(cfgs, cs, current) ==>
      vxlan.cache == map[] && Withdrawn(cfgs, cs, vxlan.Now(), old(vxlan.cache), old(vxlan.at))
    ensures Left(cfgs, cs, current) ==>
      forall n: Name :: n in vxlan.cache <==>
        Left(cfgs, cs, n) && (n in old(vxlan.cache) || Joinable(cfgs, old(vxlan.Now()), current, cluster, n))
  {
    hide ViewOf, Stored, Run, Inv, ValidCluster, V.VtepsDecode, V.EndpointsOwned, V.AllInstalled, V.OutsideSame,
         V.Explained, V.AllResolve, V.Staying, V.StillThere, V.NoneReadable, V.Gone, V.Blocked, OwnersOf, RenderQuad,
         V.StoredVtep, VtepLeft, EndStore;
    ghost var kv := EndStore(ws);
    ghost var t, before, at := vxlan.Now(), vxlan.cache, vxlan.at;
    EndpointsHold(cfgs, base, ws, cs);
    CidrsValid(cfgs);
    forall n <- before
      ensures n in at && at[n].addr != ""
    {
      V.InstalledAt(OwnersOf(cfgs), t, before, at, n);
    }
    forall n <- cfgs
      ensures V.StoredVtep(kv, n) ==
        if Left(cfgs, cs, n) then V.Endpoint(RenderQuad(cfgs[n].cidr.addr), cfgs[n].mac) else V.Endpoint("", "")
      ensures Left(cfgs, cs, n) ==> V.StoredVtep(kv, n).addr != ""
    {
      StoredExact(cfgs, base, ws, cs, n);
    }
    vxlan.EventHandler(current, cluster, OwnersOf(cfgs));
  }

  /** The entries of a cached node are gone exactly if its VTEP is still the one they were made with. */
  ghost predicate Withdrawn(cfgs: Cluster, cs: seq<Call>, t: V.Tables, cache: Infos, at: map<Name, V.Endpoint>) {
    forall n <- cache :: n in at && n in cfgs && cfgs[n].cidr.Valid() &&
      (V.Gone(t, cache[n], at[n]) <==>
       Left(cfgs, cs, n) && at[n] == V.Endpoint(RenderQuad(cfgs[n].cidr.addr), cfgs[n].mac))
  }

  /** Another node of the cluster, whose route is not there on another device. */
  ghost predicate Joinable(cfgs: Cluster, t: V.Tables, current: Name, cluster: Infos, n: Name) {
    && n in cluster && n != current && n in cfgs && cfgs[n].cidr.Valid()
    && !V.Blocked(t, cluster[n], V.Endpoint(RenderQuad(cfgs[n].cidr.addr), cfgs[n].mac))
  }
}
