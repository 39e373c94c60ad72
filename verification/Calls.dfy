/** CNI calls in a row, each by a process of its own, as a container runtime makes them: the
    contracts of `Cni.Add` and `Cni.Del` are steps of the runs in Lifecycle. */
module Calls {
  import opened Wrappers
  import opened Keys
  import opened Etcd
  import opened Ipv4
  import opened Subnet
  import opened Ipam
  import opened Storage
  import opened NodeModel
  import opened NodeStore
  import opened Steps
  import opened ClusterObject
  import opened Cni
  import opened Runs
  import opened Lifecycle

  /** The store has nothing of the node, and its subnet is not listed. */
  ghost predicate Untouched(kv: map<string, string>, cfg: Config) {
    && Stored(kv)
    && (forall k: Key :: k.Of(cfg.node) ==> k in ViewOf(kv) && ViewOf(kv)[k] == [])
    && Subnets in ViewOf(kv) && cfg.texts.subnet !in ViewOf(kv)[Subnets]
  }

  // The worlds of the two calls, on a cluster of the one node.

  ghost function Alone(cfg: Config): Cluster {
    map[cfg.node := cfg]
  }

  ghost function Before(cfg: Config, kv: map<string, string>): World {
    World(kv, map n: Name | n in Alone(cfg) :: Absent, [])
  }

  ghost function Between(cfg: Config, kv: map<string, string>, st: NodeState): World {
    World(kv, map[cfg.node := st], [cfg.node])
  }

  ghost function Afterwards(cfg: Config, kv: map<string, string>, last: NodeState): World {
    World(kv, map[cfg.node := last], if last.Absent? then WithoutName([cfg.node], cfg.node) else [cfg.node])
  }

  lemma FirstStep(cfg: Config, a: map<string, string>, b: map<string, string>, cid: Name, netns: string, nic: Name,
                  st: NodeState)
    requires cfg.Faithful() && ValidCluster(Alone(cfg)) && IsNetns(netns) && cid != HOST && SEPARATOR !in nic
    requires AddStep(a, b, cfg, Absent, cid, netns, nic, st)
    ensures Step(Alone(cfg), Before(cfg, a), AddCall(cfg.node, cid, netns, nic), Between(cfg, b, st))
  {
    hide AddStep, ValidCluster, IsNetns, TextsOf;
    assert Between(cfg, b, st).nodes == Before(cfg, a).nodes[cfg.node := st];
    assert [] + [cfg.node] == [cfg.node];
  }

  lemma SecondStep(cfg: Config, b: map<string, string>, c: map<string, string>, cid: Name, st: NodeState)
    requires cfg.Faithful() && ValidCluster(Alone(cfg)) && cid != HOST
    requires ValidState(cfg, st) && DelStep(b, c, cfg, st, cid)
    ensures Knows(st, cid) ==> IsNetns(st.pods[cid].netns)
    ensures Step(Alone(cfg), Between(cfg, b, st), DelCall(cfg.node, cid), Afterwards(cfg, c, Deleted(st, cid)))
  {
    hide ValidCluster, TextsOf, ValidState, ValidPod, StoreFor, Kept, ViewOf, Deleted;
    KnownHasNetns(cfg, st, cid);
    assert Afterwards(cfg, c, Deleted(st, cid)).nodes == Between(cfg, b, st).nodes[cfg.node := Deleted(st, cid)];
  }

  lemma AddThenDelIsRun(cfg: Config, a: map<string, string>, b: map<string, string>, c: map<string, string>,
                        cid: Name, netns: string, nic: Name, st: NodeState)
    requires cfg.Faithful() && Untouched(a, cfg) && IsNetns(netns) && cid != HOST && SEPARATOR !in nic
    requires ValidState(cfg, st) && AddStep(a, b, cfg, Absent, cid, netns, nic, st) && DelStep(b, c, cfg, st, cid)
    ensures c == a
  {
    hide ViewOf, Stored, AddStep, DelStep, TextsOf, ValidState, IsNetns, Inv, Step, ValidPod, Between, Afterwards,
         Deleted;
    var cfgs := Alone(cfg);
    StartInv(cfgs, a);
    FirstStep(cfg, a, b, cid, netns, nic, st);
    SecondStep(cfg, b, c, cid, st);
    var ws := [Before(cfg, a), Between(cfg, b, st), Afterwards(cfg, c, Deleted(st, cid))];
    var cs := [AddCall(cfg.node, cid, netns, nic), DelCall(cfg.node, cid)];
    assert DeletedLater(cs, 0) by { assert cs[1] == DelCall(cs[0].node, cs[0].cid); }
    RoundTrip(cfgs, ViewOf(a)[Subnets], ws, cs);
    StoreOf(cfg, c, Deleted(st, cid));
  }

  lemma StoreOf(cfg: Config, kv: map<string, string>, last: NodeState)
    ensures Afterwards(cfg, kv, last).kv == kv
  {
  }

  /** An ADD on a store that knows nothing of the node, and its DEL: both go through, and the store is
      what it was. */
  method AddThenDel(client: Client, cfg: Config, cid: Name, netns: string, nic: Name)
    returns (r: Result<CniResult, CniError>)
    requires client.reliableReads && client.reliableWrites && cfg.Faithful() && Untouched(client.kv, cfg)
    requires IsNetns(netns) && ShortNetns(netns) != HOST && cid != HOST && SEPARATOR !in nic
    modifies client`kv, client`lost
    ensures client.kv == old(client.kv)
    ensures r.Ok? && r.value.gateway == RenderQuad(HostAddress(cfg.cidr, 1))
  {
    hide ViewOf, Stored, Foreign, Kept, TextsOf, ValidState, FirstFree, HostFree, IsNetns, RenderQuad, HostAddress;
    ghost var a := client.kv;
    NothingYet(a, cfg);
    RoomExact(cfg, Absent);
    var adder := new Cni(cfg, client);
    ghost var st, host, gw;
    r, st, host, gw := adder.Add(cid, netns, nic, Absent);
    ghost var b := client.kv;
    var deleter := new Cni(cfg, client);
    deleter.Del(cid, nic, st);
    AddThenDelIsRun(cfg, a, b, client.kv, cid, netns, nic, st);
  }

  lemma NothingYet(kv: map<string, string>, cfg: Config)
    requires cfg.Faithful() && Untouched(kv, cfg)
    ensures StoreFor(kv, cfg, Absent) && PodCount(Absent) + 1 < cfg.hosts
  {
    hide ViewOf, Stored, TextsOf;
    Pow2Grows(1, MAX_PREFIX - cfg.cidr.prefix);
  }

  // ---------------------------------------------------------------- repeated calls

  /** An ADD that went through, repeated by another process: nothing is written, and the answer is the
      same, unless the podCIDR is not strictly inside the configured subnet. Writes may fail. */
  method AddTwice(client: Client, cfg: Config, cid: Name, netns: string, nic: Name, ghost st: NodeState)
    returns (first: Result<CniResult, CniError>, second: Result<CniResult, CniError>,
             ghost mid: map<string, string>, ghost next: NodeState)
    requires client.reliableReads && cfg.Faithful() && StoreFor(client.kv, cfg, st) && IsNetns(netns)
    requires cid != HOST && Ordinary(st, cid, nic)
    modifies client`kv, client`lost
    ensures first.Ok? ==>
      && client.kv == mid
      && (second.Ok? <==> IsSubnetOf(cfg.cidr, cfg.subnet))
      && (second.Ok? ==> second == first)
    ensures first.Ok? && client.reliableWrites ==> AddStep(old(client.kv), mid, cfg, st, cid, netns, nic, next)
    ensures client.reliableWrites && !Knows(st, cid) && !NamespaceOfOther(st, netns, cid)
            && FirstFree(cfg.cidr, Used(cfg, st), 1).Some? ==>
      first.Ok?
    ensures Knows(st, cid) ==> mid == old(client.kv)
    ensures !Knows(st, cid) && first.Ok? ==> ViewOf(mid)[Pods(cfg.node)] != old(ViewOf(client.kv))[Pods(cfg.node)]
  {
    hide ViewOf, Stored, Foreign, Kept, TextsOf, ValidState, FirstFree, HostFree, IsNetns, RenderQuad, HostAddress,
         Matches, Image, IsSubnetOf, NamespaceFree, NamespaceOfOther, PodView, RecordView, ResultFor, BaseView,
         NodeImage, Listed, AddStep;
    ghost var before := client.kv;
    var adder := new Cni(cfg, client);
    ghost var host, gw;
    first, next, host, gw := adder.Add(cid, netns, nic, st);
    mid := client.kv;
    second := first;
    if first.Ok? {
      AddedDevice(cfg, st, cid, netns, nic, next);
      RepeatExact(cfg, next.pods[cid].host);
      PodsGrew(cfg, before, mid, st, next, cid);
      var again := new Cni(cfg, client);
      ghost var last;
      second, last, host, gw := again.Add(cid, netns, nic, next);
    }
  }

  lemma AddedDevice(cfg: Config, st: NodeState, cid: Name, netns: string, nic: Name, next: NodeState)
    requires cfg.Valid() && IsNetns(netns) && ValidState(cfg, next)
    requires Added(cfg, st, cid, netns, nic, next) && Ordinary(st, cid, nic)
    ensures KnownDevice(next, cid, nic) && 1 <= next.pods[cid].host <= cfg.hosts
    ensures Order(next) == if Knows(st, cid) then Order(st) else Order(st) + [cid]
    ensures Added(cfg, next, cid, netns, nic, next)
  {
    hide IsNetns, ShortNetns, NamespaceFree, HostFree;
    assert ValidPod(cfg, next, cid);
  }

  lemma PodsGrew(cfg: Config, a: map<string, string>, b: map<string, string>, st: NodeState, next: NodeState, cid: Name)
    requires cfg.Valid() && StoreFor(a, cfg, st) && StoreFor(b, cfg, next) && next.Present?
    requires Order(next) == if Knows(st, cid) then Order(st) else Order(st) + [cid]
    ensures Pods(cfg.node) in ViewOf(a) && Pods(cfg.node) in ViewOf(b)
    ensures !Knows(st, cid) ==> ViewOf(b)[Pods(cfg.node)] != ViewOf(a)[Pods(cfg.node)]
  {
    hide ViewOf, Stored, TextsOf, ValidState;
    assert Pods(cfg.node).Of(cfg.node);
  }

  /** A DEL repeated by another process finds nothing to do. */
  method DelTwice(client: Client, cfg: Config, cid: Name, nic: Name, ghost st: NodeState)
    returns (ghost mid: map<string, string>)
    requires client.reliableReads && client.reliableWrites && cfg.Faithful() && StoreFor(client.kv, cfg, st)
    requires cid != HOST && (Knows(st, cid) ==> st.pods[cid].nic == nic)
    modifies client`kv, client`lost
    ensures DelStep(old(client.kv), mid, cfg, st, cid)
    ensures client.kv == mid
    ensures Knows(st, cid) ==> ViewOf(mid)[NetnsOf(cfg.node, cid)] != old(ViewOf(client.kv))[NetnsOf(cfg.node, cid)]
  {
    hide ViewOf, Stored, Foreign, Kept, TextsOf, ValidState, Matches, Image, NodeImage, Listed, GoneView, WithoutPod,
         WithoutName;
    ghost var before := client.kv;
    var deleter := new Cni(cfg, client);
    deleter.Del(cid, nic, st);
    mid := client.kv;
    DeletedUnknown(cfg, st, cid);
    if Knows(st, cid) { PodsShrank(cfg, before, mid, st, cid); }
    var again := new Cni(cfg, client);
    again.Del(cid, nic, Deleted(st, cid));
  }

  lemma DeletedUnknown(cfg: Config, st: NodeState, cid: Name)
    requires cfg.Valid() && ValidState(cfg, st)
    ensures Knows(st, cid) ==> ValidPod(cfg, st, cid)
    ensures !Knows(Deleted(st, cid), cid)
  {
    hide WithoutName;
  }

  lemma PodsShrank(cfg: Config, a: map<string, string>, b: map<string, string>, st: NodeState, cid: Name)
    requires cfg.Valid() && StoreFor(a, cfg, st) && Knows(st, cid) && ValidPod(cfg, st, cid)
    requires StoreFor(b, cfg, Deleted(st, cid)) && !Knows(Deleted(st, cid), cid)
    ensures NetnsOf(cfg.node, cid) in ViewOf(a) && NetnsOf(cfg.node, cid) in ViewOf(b)
    ensures ViewOf(b)[NetnsOf(cfg.node, cid)] != ViewOf(a)[NetnsOf(cfg.node, cid)]
  {
    hide ViewOf, Stored, TextsOf, ValidState, WithoutPod;
    assert NetnsOf(cfg.node, cid).Of(cfg.node);
  }

  // ---------------------------------------------------------------- the VTEP goes with the first pod

  lemma OnePod(cfg: Config, st: NodeState, a: Name, s: string, nic: Name, b: Name, t: string)
    requires cfg.Valid() && ValidState(cfg, st) && IsNetns(s) && IsNetns(t) && a != b
    requires ShortNetns(s) != ShortNetns(t) && ShortNetns(t) != HOST && Added(cfg, Absent, a, s, nic, st)
    ensures st.Present? && st.order == [a] && Knows(st, a) && st.pods[a].nic == nic && !Knows(st, b)
    ensures !NamespaceOfOther(st, t, b) && PodCount(st) == 1
  {
    hide IsNetns, ShortNetns, HostFree;
  }

  lemma TwoPods(cfg: Config, st: NodeState, two: NodeState, a: Name, b: Name, t: string, nic: Name)
    requires cfg.Valid() && ValidState(cfg, st) && ValidState(cfg, two) && IsNetns(t)
    requires a != b && st.Present? && st.order == [a]
    requires Knows(st, a) && st.pods[a].nic == nic && !Knows(st, b) && Added(cfg, st, b, t, nic, two)
    ensures Knows(two, a) && ValidPod(cfg, two, a) && two.pods[a].nic == nic
    ensures var last := Deleted(two, a); last.Present? && !last.vtep && last.order == [b]
  {
    hide IsNetns, ShortNetns, HostFree;
    assert ValidPod(cfg, two, a);
    assert two.order == [a] + [b] && [a, b][1..] == [b];
    assert WithoutName([a, b], a) == WithoutName([b], a) == [b];
  }

  lemma VtepGone(cfg: Config, kv: map<string, string>, last: NodeState, b: Name)
    requires cfg.Valid() && StoreFor(kv, cfg, last) && last.Present? && !last.vtep && last.order == [b]
    ensures Vtep(cfg.node) in ViewOf(kv) && ViewOf(kv)[Vtep(cfg.node)] == []
    ensures Pods(cfg.node) in ViewOf(kv) && ViewOf(kv)[Pods(cfg.node)] == [HOST, b]
  {
    hide ViewOf, Stored, TextsOf, ValidState;
    assert Vtep(cfg.node).Of(cfg.node) && Pods(cfg.node).Of(cfg.node);
  }

  /** Three calls on a node in VXLAN mode: with its second pod still there, the node has no VTEP. */
  method LoseVtep(client: Client, cfg: Config, a: Name, b: Name, s: string, t: string, nic: Name)
    requires client.reliableReads && client.reliableWrites && cfg.Faithful() && Untouched(client.kv, cfg)
    requires cfg.mode.Vxlan? && cfg.hosts >= 3 && a != b && a != HOST && b != HOST && SEPARATOR !in nic
    requires IsNetns(s) && IsNetns(t) && ShortNetns(s) != HOST
    requires ShortNetns(t) != HOST && ShortNetns(s) != ShortNetns(t)
    modifies client`kv, client`lost
    ensures Vtep(cfg.node) in ViewOf(client.kv) && ViewOf(client.kv)[Vtep(cfg.node)] == []
    ensures Pods(cfg.node) in ViewOf(client.kv) && ViewOf(client.kv)[Pods(cfg.node)] == [HOST, b]
  {
    hide ViewOf, Stored, Foreign, Kept, TextsOf, ValidState, FirstFree, HostFree, IsNetns, ShortNetns, RenderQuad,
         HostAddress, Matches, Image, IsSubnetOf, PodView, RecordView, ResultFor, BaseView, NodeImage, Listed, GoneView,
         Deleted, Distinct;
    NothingYet(client.kv, cfg);
    RoomExact(cfg, Absent);
    ghost var st, host, gw;
    var r;
    var first := new Cni(cfg, client);
    r, st, host, gw := first.Add(a, s, nic, Absent);
    OnePod(cfg, st, a, s, nic, b, t);
    RoomExact(cfg, st);
    ghost var two;
    var second := new Cni(cfg, client);
    r, two, host, gw := second.Add(b, t, nic, st);
    TwoPods(cfg, st, two, a, b, t, nic);
    var third := new Cni(cfg, client);
    third.Del(a, nic, two);
    VtepGone(cfg, client.kv, Deleted(two, a), b);
  }

  // ---------------------------------------------------------------- any sequence of calls

  /** A call of a container runtime on one of the nodes. */
  datatype Request =
    | AddRequest(node: Name, cid: Name, netns: string, nic: Name)
    | DelRequest(node: Name, cid: Name, nic: Name)

  /** A container has one device, and is not called like the root namespace. */
  ghost predicate Legal(cfgs: Cluster, device: (Name, Name) -> Name, q: Request) {
    && q.node in cfgs && q.cid != HOST && q.nic == device(q.node, q.cid) && SEPARATOR !in q.nic
    && (q.AddRequest? ==> IsNetns(q.netns) && ShortNetns(q.netns) != HOST)
  }

  ghost predicate DevicesAre(cfgs: Cluster, device: (Name, Name) -> Name, w: World) {
    forall n <- cfgs :: n in w.nodes && DevicesOf(device, n, w.nodes[n])
  }

  ghost predicate DevicesOf(device: (Name, Name) -> Name, n: Name, st: NodeState) {
    st.Present? ==> forall p <- st.pods :: st.pods[p].nic == device(n, p)
  }

  /** The call a request turns out to be. An ADD is refused for a known container unless the podCIDR is
      strictly inside the configured subnet, and for an unknown one if its namespace is in use. */
  ghost function Served(cfgs: Cluster, device: (Name, Name) -> Name, w: World, q: Request): Call
    requires ValidCluster(cfgs) && Legal(cfgs, device, q) && q.node in w.nodes
  {
    match q
    case DelRequest(n, cid, _) => DelCall(n, cid)
    case AddRequest(n, cid, netns, nic) =>
      if (if Knows(w.nodes[n], cid) then Inside(cfgs[n]) else NamespaceFree(w.nodes[n], netns))
      then AddCall(n, cid, netns, nic) else Call.Refused
  }

  ghost predicate Inside(cfg: Config) {
    cfg.cidr.Valid() && cfg.subnet.Valid() && IsSubnetOf(cfg.cidr, cfg.subnet)
  }

  /** An ADD of an unknown container, in a free namespace, on a node without a free address. */
  ghost predicate Exhausted(cfgs: Cluster, w: World, q: Request) {
    && q.AddRequest? && q.node in cfgs && q.node in w.nodes && !Knows(w.nodes[q.node], q.cid)
    && PodCount(w.nodes[q.node]) + 1 >= cfgs[q.node].hosts
  }

  lemma RunMore(cfgs: Cluster, ws: seq<World>, cs: seq<Call>, c: Call, x: World)
    requires ValidCluster(cfgs) && Run(cfgs, ws, cs) && Step(cfgs, ws[|cs|], c, x)
    ensures Run(cfgs, ws + [x], cs + [c])
  {
    hide Step, ValidCluster;
  }

  ghost function AfterAdd(w: World, n: Name, next: NodeState, kv: map<string, string>): World
    requires n in w.nodes
  {
    World(kv, w.nodes[n := next], if w.nodes[n].Absent? then w.created + [n] else w.created)
  }

  ghost function AfterDel(w: World, n: Name, next: NodeState, kv: map<string, string>): World
    requires n in w.nodes
  {
    World(kv, w.nodes[n := next], if next.Absent? then WithoutName(w.created, n) else w.created)
  }

  lemma AddServed(cfgs: Cluster, device: (Name, Name) -> Name, w: World, q: Request, next: NodeState,
                  kv: map<string, string>)
    requires ValidCluster(cfgs) && Legal(cfgs, device, q) && q.AddRequest?
    requires q.node in w.nodes && Listed(w.nodes[q.node])
    requires DevicesAre(cfgs, device, w)
    requires AddStep(w.kv, kv, cfgs[q.node], w.nodes[q.node], q.cid, q.netns, q.nic, next)
    ensures var x := AfterAdd(w, q.node, next, kv);
            Step(cfgs, w, AddCall(q.node, q.cid, q.netns, q.nic), x) && DevicesAre(cfgs, device, x)
  {
    hide ValidCluster, StoreFor, Kept, FirstFree, Used, ViewOf, IsNetns, ShortNetns, TextsOf, HostFree, NamespaceFree;
  }

  lemma DelServed(cfgs: Cluster, device: (Name, Name) -> Name, w: World, q: Request, kv: map<string, string>)
    requires ValidCluster(cfgs) && Legal(cfgs, device, q) && q.DelRequest?
    requires q.node in w.nodes && DevicesAre(cfgs, device, w)
    requires ValidState(cfgs[q.node], w.nodes[q.node]) && DelStep(w.kv, kv, cfgs[q.node], w.nodes[q.node], q.cid)
    ensures Knows(w.nodes[q.node], q.cid) ==> IsNetns(w.nodes[q.node].pods[q.cid].netns)
    ensures var x := AfterDel(w, q.node, Deleted(w.nodes[q.node], q.cid), kv);
            Step(cfgs, w, DelCall(q.node, q.cid), x) && DevicesAre(cfgs, device, x)
  {
    hide Disjoint, StoreFor, Kept, ViewOf, TextsOf, ValidState, WithoutName;
    KnownHasNetns(cfgs[q.node], w.nodes[q.node], q.cid);
  }

  lemma KeptStore(before: map<string, string>, after: map<string, string>, node: Name)
    requires Stored(before) && Kept(before, after, node) && ViewOf(after) == ViewOf(before)
    ensures after == before
  {
    hide Stored, ViewOf, Foreign, OthersKept;
    StoreDetermined(before, after);
  }

  /** Any sequence of ADDs and DELs on any nodes, each by a process of its own, is a run of the kind the
      theorems are about, up to the first ADD that finds its node full. */
  method Serve(client: Client, cfgs: Cluster, requests: seq<Request>, ghost device: (Name, Name) -> Name,
               ghost base: seq<string>, ghost w: World)
    returns (done: nat, ghost ws: seq<World>, ghost cs: seq<Call>)
    requires client.reliableReads && client.reliableWrites && ValidCluster(cfgs)
    requires forall q <- requests :: Legal(cfgs, device, q)
    requires Inv(cfgs, base, w) && w.kv == client.kv && DevicesAre(cfgs, device, w)
    modifies client`kv, client`lost
    ensures done <= |requests| && |cs| == done && Run(cfgs, ws, cs) && ws[0] == w
    ensures forall i | 0 <= i < done ::
      requests[i].node in ws[i].nodes && cs[i] == Served(cfgs, device, ws[i], requests[i])
    ensures if done == |requests| then client.kv == ws[done].kv else Exhausted(cfgs, ws[done], requests[done])
  {
    hide Step, Inv, ValidCluster, Legal, DevicesAre, Served, Exhausted;
    ws, cs, done := [w], [], 0;
    ghost var last := w;
    while done < |requests|
      invariant done <= |requests| && |cs| == done && Run(cfgs, ws, cs) && ws[0] == w && ws[done] == last
      invariant Inv(cfgs, base, last) && last.kv == client.kv && DevicesAre(cfgs, device, last)
      invariant forall i | 0 <= i < done ::
        requests[i].node in ws[i].nodes && cs[i] == Served(cfgs, device, ws[i], requests[i])
    {
      var q := requests[done];
      LegalNode(cfgs, device, q);
      var served;
      ghost var c, x;
      served, c, x := ServeOne(client, cfgs, q, device, base, last);
      if !served { return; }
      RunMore(cfgs, ws, cs, c, x);
      ws, cs, last, done := ws + [x], cs + [c], x, done + 1;
    }
  }

  lemma LegalNode(cfgs: Cluster, device: (Name, Name) -> Name, q: Request)
    requires Legal(cfgs, device, q)
    ensures q.node in cfgs
  {
  }

  lemma NodeReady(cfgs: Cluster, base: seq<string>, device: (Name, Name) -> Name, w: World, n: Name)
    requires ValidCluster(cfgs) && Inv(cfgs, base, w) && DevicesAre(cfgs, device, w) && n in cfgs
    ensures n in w.nodes && cfgs[n].Faithful() && StoreFor(w.kv, cfgs[n], w.nodes[n])
    ensures DevicesOf(device, n, w.nodes[n])
    ensures ValidState(cfgs[n], w.nodes[n]) && Listed(w.nodes[n]) && Stored(w.kv)
    ensures w.nodes[n].Present? ==> w.nodes[n].gateway == 1
  {
    hide ViewOf, ValidState, Disjoint, TextsOf, Listed, Matches, Stored, Listing, Quiescent, DevicesOf;
  }

  lemma KnownDeviceIs(device: (Name, Name) -> Name, n: Name, st: NodeState, cid: Name)
    requires DevicesOf(device, n, st)
    ensures Knows(st, cid) ==> st.pods[cid].nic == device(n, cid)
  {
  }

  /** One request, by a process of its own. */
  method ServeOne(client: Client, cfgs: Cluster, q: Request, ghost device: (Name, Name) -> Name,
                  ghost base: seq<string>, ghost w: World)
    returns (served: bool, ghost c: Call, ghost x: World)
    requires client.reliableReads && client.reliableWrites && ValidCluster(cfgs) && Legal(cfgs, device, q)
    requires q.node in cfgs && Inv(cfgs, base, w) && w.kv == client.kv && DevicesAre(cfgs, device, w)
    modifies client`kv, client`lost
    ensures q.node in w.nodes
    ensures served ==>
      && c == Served(cfgs, device, w, q) && Step(cfgs, w, c, x)
      && Inv(cfgs, base, x) && x.kv == client.kv && DevicesAre(cfgs, device, x)
    ensures !served ==> Exhausted(cfgs, w, q)
  {
    hide Step, Inv, ValidCluster, DevicesAre, ViewOf, Stored, StoreFor, ValidState, Listed, DelStep, TextsOf, IsNetns,
         ShortNetns, NodeImage, GoneView, NamespaceFree, DevicesOf, Inside, Exhausted, AfterDel, Kept, WithoutName,
         WithoutPod;
    var n := q.node;
    NodeReady(cfgs, base, device, w, n);
    ghost var st := w.nodes[n];
    KnownDeviceIs(device, n, st, q.cid);
    if q.AddRequest? {
      served, c, x := ServeAdd(client, cfgs, q, device, base, w);
      return;
    }
    var cni := new Cni(cfgs[n], client);
    cni.Del(q.cid, q.nic, st);
    DelServed(cfgs, device, w, q, client.kv);
    x, c := AfterDel(w, n, Deleted(st, q.cid), client.kv), DelCall(n, q.cid);
    assert x.kv == client.kv by { DelStoreIs(w, n, Deleted(st, q.cid), client.kv); }
    StepKeepsInv(cfgs, base, w, c, x);
    served := true;
  }

  lemma DelStoreIs(w: World, n: Name, next: NodeState, kv: map<string, string>)
    requires n in w.nodes
    ensures AfterDel(w, n, next, kv).kv == kv
  {
  }

  method ServeAdd(client: Client, cfgs: Cluster, q: Request, ghost device: (Name, Name) -> Name,
                  ghost base: seq<string>, ghost w: World)
    returns (served: bool, ghost c: Call, ghost x: World)
    requires client.reliableReads && client.reliableWrites && ValidCluster(cfgs)
    requires Legal(cfgs, device, q) && q.AddRequest?
    requires q.node in cfgs && Inv(cfgs, base, w) && w.kv == client.kv
    requires DevicesAre(cfgs, device, w) && q.node in w.nodes
    modifies client`kv, client`lost
    ensures served ==>
      && c == Served(cfgs, device, w, q) && Step(cfgs, w, c, x)
      && Inv(cfgs, base, x) && x.kv == client.kv && DevicesAre(cfgs, device, x)
    ensures !served ==> Exhausted(cfgs, w, q)
  {
    hide Step, Inv, ValidCluster, DevicesAre, ViewOf, Stored, StoreFor, ValidState, Listed, AddStep, TextsOf, IsNetns,
         ShortNetns, NodeImage, NamespaceFree, NamespaceOfOther, DevicesOf, Inside, Kept, FirstFree, Used, ResultFor,
         BaseView, PodView, RecordView, HostFree, Distinct, Added, PodCount, IsSubnetOf, HostCidr;
    var n := q.node;
    var cfg := cfgs[n];
    NodeReady(cfgs, base, device, w, n);
    ghost var st, kv := w.nodes[n], client.kv;
    KnownDeviceIs(device, n, st, q.cid);
    RoomExact(cfg, st);
    AddCases(cfg, st, q.netns, q.cid);
    var cni := new Cni(cfg, client);
    var r;
    ghost var next, host, gw;
    r, next, host, gw := cni.Add(q.cid, q.netns, q.nic, st);
    if r.Ok? {
      AddServed(cfgs, device, w, q, next, client.kv);
      x, c := AfterAdd(w, n, next, client.kv), AddCall(n, q.cid, q.netns, q.nic);
      StepKeepsInv(cfgs, base, w, c, x);
      served := true;
    } else {
      served := r.error != NoAddress;
      x, c := w, Call.Refused;
      RefusedStep(cfgs, w);
      if served && !Knows(st, q.cid) {
        ViewTotal(kv);
        RefusedStore(cfg, kv, client.kv, st, gw);
      }
    }
  }

  lemma RefusedStep(cfgs: Cluster, w: World)
    requires ValidCluster(cfgs)
    ensures Step(cfgs, w, Call.Refused, w)
  {
  }

  lemma RefusedStore(cfg: Config, before: map<string, string>, after: map<string, string>, st: NodeState, gw: nat)
    requires cfg.Valid() && Stored(before) && Kept(before, after, cfg.node)
    requires st.Present? && gw >= 1 && Total(ViewOf(before))
    requires ViewOf(after) == BaseView(ViewOf(before), cfg, st, gw)
    ensures after == before
  {
    hide Stored, ViewOf, Kept;
    KeptStore(before, after, cfg.node);
  }

  /** When an ADD of a device in its place goes through, finds the namespace in use, or is refused. */
  lemma AddCases(cfg: Config, st: NodeState, netns: string, cid: Name)
    requires cfg.Faithful() && ValidState(cfg, st) && IsNetns(netns) && ShortNetns(netns) != HOST
    ensures !Knows(st, cid) ==> (NamespaceOfOther(st, netns, cid) <==> !NamespaceFree(st, netns))
    ensures !NamespaceFree(st, netns) ==> st.Present?
    ensures Knows(st, cid) ==>
      1 <= st.pods[cid].host <= cfg.hosts && (IsSubnetOf(HostCidr(cfg, st.pods[cid].host), cfg.subnet) <==> Inside(cfg))
  {
    hide IsNetns, ShortNetns, TextsOf, IsSubnetOf, HostCidr, ValidState;
    if Knows(st, cid) {
      PodHost(cfg, st, cid);
      RepeatExact(cfg, st.pods[cid].host);
    } else {
      UnknownNamespace(cfg, st, netns, cid);
    }
  }
}
