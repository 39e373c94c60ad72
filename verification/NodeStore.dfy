/** What the CNI calls write, entry by entry in program order, and that those writes carry the image
    of one node state to the image of the next. */
module NodeStore {
  import opened Keys
  import opened Etcd
  import opened Subnet
  import opened Storage
  import opened NodeModel

  ghost predicate Total(v: View) {
    forall k: Key :: k in v
  }

  lemma ViewTotal(kv: map<string, string>)
    ensures Total(ViewOf(kv))
  {
  }

  /** The store stays well formed, and only entries of `node` and the shared list changed. */
  ghost predicate Kept(before: map<string, string>, after: map<string, string>, node: Name) {
    Stored(after) && Foreign(after) == Foreign(before) && OthersKept(ViewOf(before), ViewOf(after), node)
  }

  lemma ChangedKept(before: map<string, string>, after: map<string, string>, k: Key, xs: seq<string>, node: Name)
    requires Changed(before, after, k, xs) && (k == Subnets || k.Of(node))
    ensures Kept(before, after, node)
  {
    hide Stored, Foreign, KeyText, ListAt;
    ViewTotal(before);
  }

  lemma SameKept(kv: map<string, string>, node: Name)
    requires Stored(kv)
    ensures Kept(kv, kv, node)
  {
    hide Stored, Foreign, KeyText, ListAt;
    ViewTotal(kv);
  }

  lemma KeptTrans(a: map<string, string>, b: map<string, string>, c: map<string, string>, node: Name)
    requires Kept(a, b, node) && Kept(b, c, node)
    ensures Kept(a, c, node)
  {
    hide Stored, Foreign, ViewOf;
  }

  /** `append` on the view. */
  ghost function Plus(v: View, k: Key, x: string): View
    requires Total(v)
  {
    v[k := v[k] + [x]]
  }

  ghost function Minus(v: View, k: Key, x: string): View
    requires Total(v)
  {
    v[k := Without(v[k], x)]
  }

  // ---------------------------------------------------------------- creating a node

  ghost function SubnetView(v: View, cfg: Config): (r: View)
    requires Total(v)
    ensures Total(r)
  {
    Plus(v, Subnets, cfg.texts.subnet)[NodeSubnet(cfg.node) := [cfg.texts.subnet]]
  }

  ghost function BridgeView(v: View, cfg: Config, gateway: string): (r: View)
    requires Total(v)
    ensures Total(r)
  {
    Plus(Plus(v, Nics(cfg.node, HOST), cfg.bridge), Addrs(cfg.node, HOST, cfg.bridge), gateway)
  }

  ghost function VxlanView(v: View, cfg: Config): (r: View)
    requires Total(v)
    ensures Total(r)
  {
    Plus(Plus(v, Nics(cfg.node, HOST), NAME_VXLAN), Addrs(cfg.node, HOST, NAME_VXLAN), cfg.texts.vxlan)
      [Vtep(cfg.node) := [cfg.texts.vtep]]
  }

  ghost function RootView(v: View, cfg: Config): (r: View)
    requires Total(v)
    ensures Total(r)
  {
    Plus(v[NetnsOf(cfg.node, HOST) := [HOST]][PodIn(cfg.node, HOST) := [HOST]], Pods(cfg.node), HOST)
  }

  ghost function HostView(v: View, cfg: Config, gateway: string): View
    requires Total(v)
  {
    var b := BridgeView(v, cfg, gateway);
    var c := if cfg.mode.Vxlan? then VxlanView(b, cfg) else b;
    RootView(Plus(c, Nics(cfg.node, HOST), cfg.underlay), cfg)
  }

  ghost function CreateView(v: View, cfg: Config, gateway: nat): View
    requires cfg.Valid() && Total(v) && gateway >= 1
  {
    var a := Plus(SubnetView(v, cfg), Addresses(cfg.node), cfg.texts.host(gateway));
    HostView(a, cfg, cfg.texts.host(gateway))
  }

  // What those writes leave under one entry.

  ghost function SubnetEntry(cfg: Config, k: Key, xs: seq<string>): seq<string> {
    if k.Subnets? then xs + [cfg.texts.subnet] else if k == NodeSubnet(cfg.node) then [cfg.texts.subnet] else xs
  }

  ghost function BridgeEntry(cfg: Config, gateway: string, k: Key, xs: seq<string>): seq<string> {
    if k == Nics(cfg.node, HOST) then xs + [cfg.bridge]
    else if k == Addrs(cfg.node, HOST, cfg.bridge) then xs + [gateway]
    else xs
  }

  ghost function VxlanEntry(cfg: Config, k: Key, xs: seq<string>): seq<string> {
    if k == Nics(cfg.node, HOST) then xs + [NAME_VXLAN]
    else if k == Addrs(cfg.node, HOST, NAME_VXLAN) then xs + [cfg.texts.vxlan]
    else if k == Vtep(cfg.node) then [cfg.texts.vtep]
    else xs
  }

  ghost function RootEntry(cfg: Config, k: Key, xs: seq<string>): seq<string> {
    if k == NetnsOf(cfg.node, HOST) || k == PodIn(cfg.node, HOST) then [HOST]
    else if k == Pods(cfg.node) then xs + [HOST]
    else xs
  }

  ghost function PlusEntry(l: Key, x: string, k: Key, xs: seq<string>): seq<string> {
    if k == l then xs + [x] else xs
  }

  ghost function CreateEntry(cfg: Config, gateway: string, k: Key, xs: seq<string>): seq<string> {
    var a := BridgeEntry(cfg, gateway, k, PlusEntry(Addresses(cfg.node), gateway, k, SubnetEntry(cfg, k, xs)));
    var b := if cfg.mode.Vxlan? then VxlanEntry(cfg, k, a) else a;
    RootEntry(cfg, k, PlusEntry(Nics(cfg.node, HOST), cfg.underlay, k, b))
  }

  lemma BridgeAt(v: View, cfg: Config, gateway: string, k: Key)
    requires Total(v)
    ensures BridgeView(v, cfg, gateway)[k] == BridgeEntry(cfg, gateway, k, v[k])
  {
  }

  lemma VxlanAt(v: View, cfg: Config, k: Key)
    requires Total(v)
    ensures VxlanView(v, cfg)[k] == VxlanEntry(cfg, k, v[k])
  {
  }

  lemma RootAt(v: View, cfg: Config, k: Key)
    requires Total(v)
    ensures RootView(v, cfg)[k] == RootEntry(cfg, k, v[k])
  {
  }

  lemma SubnetAt(v: View, cfg: Config, k: Key)
    requires Total(v)
    ensures SubnetView(v, cfg)[k] == SubnetEntry(cfg, k, v[k])
  {
  }

  lemma CreateAt(v: View, cfg: Config, gateway: nat, k: Key)
    requires cfg.Valid() && Total(v) && gateway >= 1
    ensures k in CreateView(v, cfg, gateway)
    ensures CreateView(v, cfg, gateway)[k] == CreateEntry(cfg, cfg.texts.host(gateway), k, v[k])
  {
    hide SubnetEntry, BridgeEntry, VxlanEntry, RootEntry, SubnetView, BridgeView, VxlanView, RootView;
    var g := cfg.texts.host(gateway);
    var a := Plus(SubnetView(v, cfg), Addresses(cfg.node), g);
    SubnetAt(v, cfg, k);
    BridgeAt(a, cfg, g, k);
    var b := BridgeView(a, cfg, g);
    if cfg.mode.Vxlan? { VxlanAt(b, cfg, k); }
    var c := if cfg.mode.Vxlan? then VxlanView(b, cfg) else b;
    RootAt(Plus(c, Nics(cfg.node, HOST), cfg.underlay), cfg, k);
  }

  lemma CreateImage(cfg: Config, gateway: nat, k: Key)
    requires cfg.Valid() && gateway >= 1 && k.Of(cfg.node)
    ensures CreateEntry(cfg, cfg.texts.host(gateway), k, []) == Image(cfg, Created(gateway), k)
  {
  }

  lemma CreateMatches(v: View, cfg: Config, gateway: nat)
    requires cfg.Valid() && Total(v) && 1 <= gateway <= cfg.hosts
    requires Matches(v, cfg, Absent)
    ensures ValidState(cfg, Created(gateway)) && Matches(CreateView(v, cfg, gateway), cfg, Created(gateway))
    ensures OthersKept(v, CreateView(v, cfg, gateway), cfg.node)
    ensures CreateView(v, cfg, gateway)[Subnets] == v[Subnets] + [cfg.texts.subnet]
  {
    hide CreateView;
    CreatedValid(cfg, gateway);
    var w := CreateView(v, cfg, gateway);
    forall k: Key
      ensures k in w && (k.Of(cfg.node) ==> w[k] == Image(cfg, Created(gateway), k))
      ensures !k.Of(cfg.node) ==> w[k] == if k == Subnets then v[k] + [cfg.texts.subnet] else v[k]
    {
      CreateAt(v, cfg, gateway, k);
      if k.Of(cfg.node) { CreateImage(cfg, gateway, k); }
    }
  }

  // ---------------------------------------------------------------- adding a pod

  /** The pod's namespace, both ways, its place in the list and its device. */
  ghost function RecordView(v: View, cfg: Config, cid: Name, netns: string, nic: Name): (r: View)
    requires Total(v) && IsNetns(netns)
    ensures Total(r)
  {
    var n := cfg.node;
    var a := Plus(v[PodIn(n, ShortNetns(netns)) := [cid]], Pods(n), cid);
    Plus(a[NetnsOf(n, cid) := [netns]], Nics(n, cid), nic)
  }

  /** The pod's address and its default route. */
  ghost function NetworkView(v: View, cfg: Config, cid: Name, nic: Name, host: nat, gateway: nat): (r: View)
    requires Total(v)
    ensures Total(r)
  {
    var n := cfg.node;
    var a := Plus(Plus(v, Addresses(n), cfg.texts.host(host)), Addrs(n, cid, nic), cfg.texts.host(host));
    Plus(a, Routes(n, cid, nic), cfg.texts.route(gateway, nic))
  }

  /** The three writes. */
  lemma NetworkSteps(a: map<string, string>, b: map<string, string>, c: map<string, string>, d: map<string, string>,
                     cfg: Config, cid: Name, nic: Name, host: nat, gateway: nat)
    requires Total(ViewOf(a)) && Total(ViewOf(b)) && Total(ViewOf(c))
    requires Changed(a, b, Addresses(cfg.node), ViewOf(a)[Addresses(cfg.node)] + [cfg.texts.host(host)])
    requires Changed(b, c, Addrs(cfg.node, cid, nic), ViewOf(b)[Addrs(cfg.node, cid, nic)] + [cfg.texts.host(host)])
    requires Changed(c, d, Routes(cfg.node, cid, nic),
                     ViewOf(c)[Routes(cfg.node, cid, nic)] + [cfg.texts.route(gateway, nic)])
    ensures Stored(d) && Foreign(d) == Foreign(a) && Kept(a, d, cfg.node)
    ensures ViewOf(d) == NetworkView(ViewOf(a), cfg, cid, nic, host, gateway)
  {
    hide ViewOf, Stored, Foreign, OthersKept;
    ChangedKept(a, b, Addresses(cfg.node), ViewOf(a)[Addresses(cfg.node)] + [cfg.texts.host(host)], cfg.node);
    ChangedKept(b, c, Addrs(cfg.node, cid, nic), ViewOf(b)[Addrs(cfg.node, cid, nic)]
        + [cfg.texts.host(host)], cfg.node);
    ChangedKept(c, d, Routes(cfg.node, cid, nic),
                ViewOf(c)[Routes(cfg.node, cid, nic)] + [cfg.texts.route(gateway, nic)], cfg.node);
    KeptTrans(a, b, c, cfg.node);
    KeptTrans(a, c, d, cfg.node);
  }

  ghost function PodView(v: View, cfg: Config, cid: Name, pod: Pod, gateway: nat): View
    requires Total(v) && IsNetns(pod.netns)
  {
    NetworkView(RecordView(v, cfg, cid, pod.netns, pod.nic), cfg, cid, pod.nic, pod.host, gateway)
  }

  ghost function RecordEntry(cfg: Config, cid: Name, netns: string, nic: Name, k: Key, xs: seq<string>): seq<string>
    requires IsNetns(netns)
  {
    if k == PodIn(cfg.node, ShortNetns(netns)) then [cid]
    else if k == Pods(cfg.node) then xs + [cid]
    else if k == NetnsOf(cfg.node, cid) then [netns]
    else if k == Nics(cfg.node, cid) then xs + [nic]
    else xs
  }

  ghost function NetworkEntry(cfg: Config, cid: Name, nic: Name, host: nat, gateway: nat, k: Key,
                              xs: seq<string>): seq<string> {
    if k == Addresses(cfg.node) || k == Addrs(cfg.node, cid, nic) then xs + [cfg.texts.host(host)]
    else if k == Routes(cfg.node, cid, nic) then xs + [cfg.texts.route(gateway, nic)]
    else xs
  }

  ghost function PodEntry(cfg: Config, cid: Name, pod: Pod, gateway: nat, k: Key, xs: seq<string>): seq<string>
    requires IsNetns(pod.netns)
  {
    NetworkEntry(cfg, cid, pod.nic, pod.host, gateway, k, RecordEntry(cfg, cid, pod.netns, pod.nic, k, xs))
  }

  lemma RecordAt(v: View, cfg: Config, cid: Name, netns: string, nic: Name, k: Key)
    requires Total(v) && IsNetns(netns)
    ensures RecordView(v, cfg, cid, netns, nic)[k] == RecordEntry(cfg, cid, netns, nic, k, v[k])
  {
    hide IsNetns, ShortNetns;
  }

  lemma NetworkAt(v: View, cfg: Config, cid: Name, nic: Name, host: nat, gateway: nat, k: Key)
    requires Total(v)
    ensures NetworkView(v, cfg, cid, nic, host, gateway)[k] == NetworkEntry(cfg, cid, nic, host, gateway, k, v[k])
  {
  }

  lemma PodAt(v: View, cfg: Config, cid: Name, pod: Pod, gateway: nat, k: Key)
    requires Total(v) && IsNetns(pod.netns)
    ensures k in PodView(v, cfg, cid, pod, gateway)
    ensures PodView(v, cfg, cid, pod, gateway)[k] == PodEntry(cfg, cid, pod, gateway, k, v[k])
  {
    hide RecordEntry, NetworkEntry;
    RecordAt(v, cfg, cid, pod.netns, pod.nic, k);
    NetworkAt(RecordView(v, cfg, cid, pod.netns, pod.nic), cfg, cid, pod.nic, pod.host, gateway, k);
  }

  lemma PodEntryElsewhere(cfg: Config, cid: Name, pod: Pod, gateway: nat, k: Key, xs: seq<string>)
    requires IsNetns(pod.netns) && !k.Of(cfg.node)
    ensures PodEntry(cfg, cid, pod, gateway, k, xs) == xs
  {
  }

  lemma PodEntryImage(cfg: Config, st: NodeState, cid: Name, pod: Pod, k: Key)
    requires st.Present? && Listed(st) && k.Of(cfg.node)
    requires cid !in st.pods && cid != HOST && IsNetns(pod.netns) && NamespaceFree(st, pod.netns)
    ensures PodEntry(cfg, cid, pod, st.gateway, k, Image(cfg, st, k)) == Image(cfg, WithPod(st, cid, pod), k)
  {
    if k.Addresses? { PodAddressesImage(cfg, st, cid, pod); } else { PodRecordsImage(cfg, st, cid, pod, k); }
  }

  lemma PodAddressesImage(cfg: Config, st: NodeState, cid: Name, pod: Pod)
    requires st.Present? && Listed(st) && cid !in st.pods && IsNetns(pod.netns)
    ensures PodEntry(cfg, cid, pod, st.gateway, Addresses(cfg.node), Image(cfg, st, Addresses(cfg.node)))
         == Image(cfg, WithPod(st, cid, pod), Addresses(cfg.node))
  {
    hide IsNetns, ShortNetns;
    var next := WithPod(st, cid, pod);
    assert HostTexts(cfg, next.order, next.pods) == HostTexts(cfg, st.order, st.pods) + [cfg.texts.host(pod.host)];
  }

  lemma PodRecordsImage(cfg: Config, st: NodeState, cid: Name, pod: Pod, k: Key)
    requires st.Present? && Listed(st) && k.Of(cfg.node) && !k.Addresses?
    requires cid !in st.pods && cid != HOST && IsNetns(pod.netns) && NamespaceFree(st, pod.netns)
    ensures PodEntry(cfg, cid, pod, st.gateway, k, Image(cfg, st, k)) == Image(cfg, WithPod(st, cid, pod), k)
  {
    hide IsNetns, ShortNetns, HostTexts;
  }

  lemma PodMatches(v: View, cfg: Config, st: NodeState, cid: Name, pod: Pod)
    requires cfg.Valid() && Total(v) && ValidState(cfg, st) && st.Present? && Matches(v, cfg, st)
    requires cid !in st.pods && cid != HOST && IsNetns(pod.netns) && NamespaceFree(st, pod.netns)
    requires SEPARATOR !in pod.nic && HostFree(cfg, st, pod.host)
    ensures ValidState(cfg, WithPod(st, cid, pod))
    ensures Matches(PodView(v, cfg, cid, pod, st.gateway), cfg, WithPod(st, cid, pod))
    ensures OthersKept(v, PodView(v, cfg, cid, pod, st.gateway), cfg.node)
    ensures PodView(v, cfg, cid, pod, st.gateway)[Subnets] == v[Subnets]
  {
    hide PodView, Image, PodEntry;
    WithPodValid(cfg, st, cid, pod);
    var w, next := PodView(v, cfg, cid, pod, st.gateway), WithPod(st, cid, pod);
    forall k: Key
      ensures k in w && (k.Of(cfg.node) ==> w[k] == Image(cfg, next, k))
      ensures !k.Of(cfg.node) ==> w[k] == v[k]
    {
      PodAt(v, cfg, cid, pod, st.gateway, k);
      if k.Of(cfg.node) {
        PodEntryImage(cfg, st, cid, pod, k);
      } else {
        PodEntryElsewhere(cfg, cid, pod, st.gateway, k, v[k]);
      }
    }
  }

  // ---------------------------------------------------------------- removing a pod

  /** One device goes: its address is released unless it is the underlay, its entries are deleted,
      and in VXLAN mode so is the node's VTEP. */
  ghost function DelNicView(v: View, cfg: Config, pod: Name, nic: Name, addr: string, release: bool): View
    requires Total(v)
  {
    var n := cfg.node;
    var a := if release then Minus(v, Addresses(n), addr) else v;
    var b := Minus(a[Addrs(n, pod, nic) := []][Routes(n, pod, nic) := []], Nics(n, pod), nic);
    if cfg.mode.Vxlan? then b[Vtep(n) := []] else b
  }

  ghost function DelPodView(v: View, cfg: Config, pod: Name, short: Name): View
    requires Total(v)
  {
    Minus(v[NetnsOf(cfg.node, pod) := []][PodIn(cfg.node, short) := []], Pods(cfg.node), pod)
  }

  ghost function PodGoneView(v: View, cfg: Config, cid: Name, pod: Pod): View
    requires Total(v) && IsNetns(pod.netns)
  {
    DelPodView(DelNicView(v, cfg, cid, pod.nic, cfg.texts.host(pod.host), true), cfg, cid, ShortNetns(pod.netns))
  }

  /** No two hosts share a text. */
  ghost predicate HostTextsDiffer(cfg: Config) {
    forall i, j | 1 <= i <= cfg.hosts && 1 <= j <= cfg.hosts :: cfg.texts.host(i) == cfg.texts.host(j) ==> i == j
  }

  lemma FaithfulTextsDiffer(cfg: Config)
    requires cfg.Faithful()
    ensures HostTextsDiffer(cfg)
  {
    forall i: nat, j: nat | 1 <= i <= cfg.hosts && 1 <= j <= cfg.hosts && cfg.texts.host(i) == cfg.texts.host(j)
      ensures i == j
    {
      GenerateIpInjective(cfg.cidr, i, j);
    }
  }

  lemma {:induction false} WithoutPods(xs: seq<Name>, x: Name)
    ensures Without(xs, x) == WithoutName(xs, x)
  {
    if xs != [] { WithoutPods(xs[1..], x); }
  }

  lemma {:induction false} WithoutHosts(cfg: Config, xs: seq<Name>, pods: map<Name, Pod>, x: Name)
    requires x in pods && forall p <- xs :: p in pods
    requires forall p <- xs :: cfg.texts.host(pods[p].host) == cfg.texts.host(pods[x].host) ==> p == x
    ensures forall p <- WithoutName(xs, x) :: p in pods && p != x
    ensures Without(HostTexts(cfg, xs, pods), cfg.texts.host(pods[x].host)) ==
      HostTexts(cfg, WithoutName(xs, x), pods - {x})
  {
    if xs != [] {
      WithoutHosts(cfg, xs[1..], pods, x);
      assert HostTexts(cfg, xs, pods)[1..] == HostTexts(cfg, xs[1..], pods);
      assert HostTexts(cfg, xs, pods)[0] == cfg.texts.host(pods[xs[0]].host);
      if xs[0] != x {
        var ys := WithoutName(xs[1..], x);
        assert HostTexts(cfg, [xs[0]] + ys, pods - {x}) ==
          [cfg.texts.host(pods[xs[0]].host)] + HostTexts(cfg, ys, pods - {x});
      }
    }
  }

  /** Releasing a pod's address takes that one out of the node's list and no other. */
  lemma {:induction false} AddressesWithout(cfg: Config, st: NodeState, cid: Name)
    requires cfg.Valid() && ValidState(cfg, st) && Knows(st, cid) && HostTextsDiffer(cfg)
    ensures Listed(WithoutPod(st, cid))
    ensures Without([cfg.texts.host(st.gateway)] + HostTexts(cfg, st.order, st.pods), cfg.texts.host(st.pods[cid].host))
         == [cfg.texts.host(st.gateway)] + HostTexts(cfg, WithoutName(st.order, cid), st.pods - {cid})
  {
    WithoutPodValid(cfg, st, cid);
    forall p <- st.order
      ensures p in st.pods && ValidPod(cfg, st, p)
    {
    }
    WithoutHosts(cfg, st.order, st.pods, cid);
    var g, hs := cfg.texts.host(st.gateway), HostTexts(cfg, st.order, st.pods);
    assert ([g] + hs)[1..] == hs;
  }

  /** What deleting a device leaves under one entry. */
  ghost function DelNicEntry(cfg: Config, pod: Name, nic: Name, addr: string, release: bool, k: Key,
                             xs: seq<string>): seq<string> {
    if !k.Of(cfg.node) then xs else
      match k
      case Addresses(_) => if release then Without(xs, addr) else xs
      case Nics(_, p) => if p == pod then Without(xs, nic) else xs
      case Addrs(_, p, i) => if p == pod && i == nic then [] else xs
      case Routes(_, p, i) => if p == pod && i == nic then [] else xs
      case Vtep(_) => if cfg.mode.Vxlan? then [] else xs
      case _ => xs
  }

  ghost function DelPodEntry(cfg: Config, pod: Name, short: Name, k: Key, xs: seq<string>): seq<string> {
    if !k.Of(cfg.node) then xs else
      match k
      case NetnsOf(_, p) => if p == pod then [] else xs
      case PodIn(_, s) => if s == short then [] else xs
      case Pods(_) => Without(xs, pod)
      case _ => xs
  }

  lemma DelNicAt(v: View, cfg: Config, pod: Name, nic: Name, addr: string, release: bool, k: Key)
    requires Total(v)
    ensures DelNicView(v, cfg, pod, nic, addr, release)[k] == DelNicEntry(cfg, pod, nic, addr, release, k, v[k])
  {
  }

  lemma DelPodAt(v: View, cfg: Config, pod: Name, short: Name, k: Key)
    requires Total(v)
    ensures DelPodView(v, cfg, pod, short)[k] == DelPodEntry(cfg, pod, short, k, v[k])
  {
  }

  ghost function PodGoneEntry(cfg: Config, cid: Name, pod: Pod, k: Key, xs: seq<string>): seq<string>
    requires IsNetns(pod.netns)
  {
    DelPodEntry(cfg, cid, ShortNetns(pod.netns), k,
        DelNicEntry(cfg, cid, pod.nic, cfg.texts.host(pod.host), true, k, xs))
  }

  lemma PodGoneAt(v: View, cfg: Config, cid: Name, pod: Pod, k: Key)
    requires Total(v) && IsNetns(pod.netns)
    ensures PodGoneView(v, cfg, cid, pod)[k] == PodGoneEntry(cfg, cid, pod, k, v[k])
  {
    DelNicAt(v, cfg, cid, pod.nic, cfg.texts.host(pod.host), true, k);
    DelPodAt(DelNicView(v, cfg, cid, pod.nic, cfg.texts.host(pod.host), true), cfg, cid, ShortNetns(pod.netns), k);
  }

  lemma PodGoneImage(cfg: Config, st: NodeState, cid: Name, k: Key)
    requires cfg.Valid() && ValidState(cfg, st) && Knows(st, cid) && k.Of(cfg.node) && HostTextsDiffer(cfg)
    requires ValidPod(cfg, st, cid) && Listed(WithoutPod(st, cid))
    ensures PodGoneEntry(cfg, cid, st.pods[cid], k, Image(cfg, st, k)) == Image(cfg, WithoutPod(st, cid), k)
  {
    if k.Addresses? || k.Pods? { PodGoneLists(cfg, st, cid, k); } else { PodGoneRecords(cfg, st, cid, k); }
  }

  lemma PodGoneLists(cfg: Config, st: NodeState, cid: Name, k: Key)
    requires cfg.Valid() && ValidState(cfg, st) && Knows(st, cid) && k.Of(cfg.node) && HostTextsDiffer(cfg)
    requires ValidPod(cfg, st, cid) && Listed(WithoutPod(st, cid))
    requires k.Addresses? || k.Pods?
    ensures PodGoneEntry(cfg, cid, st.pods[cid], k, Image(cfg, st, k)) == Image(cfg, WithoutPod(st, cid), k)
  {
    if k.Addresses? {
      AddressesWithout(cfg, st, cid);
    } else {
      WithoutPods(st.order, cid);
      WithoutOther(HOST, st.order, cid);
    }
  }

  lemma PodGoneRecords(cfg: Config, st: NodeState, cid: Name, k: Key)
    requires cfg.Valid() && ValidState(cfg, st) && Knows(st, cid) && k.Of(cfg.node) && HostTextsDiffer(cfg)
    requires ValidPod(cfg, st, cid) && Listed(WithoutPod(st, cid))
    requires !k.Addresses? && !k.Pods?
    ensures PodGoneEntry(cfg, cid, st.pods[cid], k, Image(cfg, st, k)) == Image(cfg, WithoutPod(st, cid), k)
  {
    WithoutSelf(st.pods[cid].nic);
  }

  lemma {:induction false} WithoutSelf(x: string)
    ensures Without([x], x) == []
  {
  }

  lemma {:induction false} WithoutHead(x: string, xs: seq<string>)
    ensures Without([x] + xs, x) == Without(xs, x)
  {
    assert ([x] + xs)[1..] == xs;
  }

  lemma {:induction false} WithoutOther(y: string, xs: seq<string>, x: string)
    requires x != y
    ensures Without([y] + xs, x) == [y] + Without(xs, x)
  {
    assert ([y] + xs)[1..] == xs;
  }

  lemma {:induction false} WithoutAbsent(xs: seq<string>, x: string)
    requires x !in xs
    ensures Without(xs, x) == xs
  {
    if xs != [] { WithoutAbsent(xs[1..], x); }
  }

  lemma PodGoneMatches(v: View, cfg: Config, st: NodeState, cid: Name)
    requires cfg.Valid() && Total(v) && ValidState(cfg, st) && Knows(st, cid)
    requires Matches(v, cfg, st) && HostTextsDiffer(cfg)
    ensures ValidPod(cfg, st, cid) && ValidState(cfg, WithoutPod(st, cid))
    ensures Matches(PodGoneView(v, cfg, cid, st.pods[cid]), cfg, WithoutPod(st, cid))
    ensures OthersKept(v, PodGoneView(v, cfg, cid, st.pods[cid]), cfg.node)
    ensures PodGoneView(v, cfg, cid, st.pods[cid])[Subnets] == v[Subnets]
  {
    WithoutPodValid(cfg, st, cid);
    var w, next := PodGoneView(v, cfg, cid, st.pods[cid]), WithoutPod(st, cid);
    forall k: Key
      ensures k.Of(cfg.node) ==> w[k] == Image(cfg, next, k)
      ensures !k.Of(cfg.node) ==> w[k] == v[k]
    {
      PodGoneAt(v, cfg, cid, st.pods[cid], k);
      if k.Of(cfg.node) { PodGoneImage(cfg, st, cid, k); }
    }
  }

  // ---------------------------------------------------------------- removing the node

  /** The devices of the root namespace. */
  ghost function DevicesGoneView(v: View, cfg: Config, gateway: nat): (r: View)
    requires Total(v)
    ensures Total(r)
  {
    var a := DelNicView(v, cfg, HOST, cfg.bridge, cfg.texts.host(gateway), true);
    var b := if cfg.mode.Vxlan? then DelNicView(a, cfg, HOST, NAME_VXLAN, cfg.texts.vxlan, true) else a;
    DelNicView(b, cfg, HOST, cfg.underlay, "", false)
  }

  ghost function NodeGoneView(v: View, cfg: Config, gateway: nat): View
    requires Total(v)
  {
    var c := DelPodView(DevicesGoneView(v, cfg, gateway), cfg, HOST, HOST);
    Minus(c[NodeSubnet(cfg.node) := []], Subnets, cfg.texts.subnet)
  }

  ghost function NodeGoneEntry(cfg: Config, gateway: nat, k: Key, xs: seq<string>): seq<string> {
    var a := DelNicEntry(cfg, HOST, cfg.bridge, cfg.texts.host(gateway), true, k, xs);
    var b := if cfg.mode.Vxlan? then DelNicEntry(cfg, HOST, NAME_VXLAN, cfg.texts.vxlan, true, k, a) else a;
    var c := DelPodEntry(cfg, HOST, HOST, k, DelNicEntry(cfg, HOST, cfg.underlay, "", false, k, b));
    if k.Subnets? then Without(c, cfg.texts.subnet) else if k == NodeSubnet(cfg.node) then [] else c
  }

  lemma NodeGoneAt(v: View, cfg: Config, gateway: nat, k: Key)
    requires Total(v)
    ensures NodeGoneView(v, cfg, gateway)[k] == NodeGoneEntry(cfg, gateway, k, v[k])
  {
    var a := DelNicView(v, cfg, HOST, cfg.bridge, cfg.texts.host(gateway), true);
    DelNicAt(v, cfg, HOST, cfg.bridge, cfg.texts.host(gateway), true, k);
    var b := if cfg.mode.Vxlan? then DelNicView(a, cfg, HOST, NAME_VXLAN, cfg.texts.vxlan, true) else a;
    if cfg.mode.Vxlan? { DelNicAt(a, cfg, HOST, NAME_VXLAN, cfg.texts.vxlan, true, k); }
    DelNicAt(b, cfg, HOST, cfg.underlay, "", false, k);
    var c := DelNicView(b, cfg, HOST, cfg.underlay, "", false);
    DelPodAt(c, cfg, HOST, HOST, k);
    SubnetGoneAt(DelPodView(c, cfg, HOST, HOST), cfg, k);
  }

  lemma SubnetGoneAt(v: View, cfg: Config, k: Key)
    requires Total(v)
    ensures Minus(v[NodeSubnet(cfg.node) := []], Subnets, cfg.texts.subnet)[k] ==
            if k.Subnets? then Without(v[k], cfg.texts.subnet) else if k == NodeSubnet(cfg.node) then [] else v[k]
  {
  }

  lemma NodeGoneImage(cfg: Config, st: NodeState, k: Key)
    requires cfg.Valid() && ValidState(cfg, st) && st.Present? && st.order == [] && k.Of(cfg.node)
    ensures NodeGoneEntry(cfg, st.gateway, k, Image(cfg, st, k)) == []
  {
    match k
    case Addresses(_) =>
      var g := cfg.texts.host(st.gateway);
      assert [g] + HostTexts(cfg, st.order, st.pods) == [g];
      WithoutSelf(g);
    case Pods(_) => WithoutSelf(HOST);
    case Nics(_, p) => if p == HOST { HostNicsGone(cfg); }
    case _ =>
  }

  lemma HostNicsGone(cfg: Config)
    requires cfg.Valid()
    ensures var ys := Without(HostNics(cfg), cfg.bridge);
            Without(if cfg.mode.Vxlan? then Without(ys, NAME_VXLAN) else ys, cfg.underlay) == []
  {
    var u: seq<string> := [cfg.underlay];
    WithoutHead(cfg.underlay, []);
    WithoutAbsent(u, cfg.bridge);
    WithoutAbsent(u, NAME_VXLAN);
    WithoutHead(NAME_VXLAN, u);
    WithoutOther(NAME_VXLAN, u, cfg.bridge);
    WithoutHead(cfg.bridge, u);
    WithoutHead(cfg.bridge, [NAME_VXLAN] + u);
    assert HostNics(cfg) == if cfg.mode.Vxlan? then [cfg.bridge] + ([NAME_VXLAN] + u) else [cfg.bridge] + u;
  }

  lemma NodeGoneMatches(v: View, cfg: Config, st: NodeState)
    requires cfg.Valid() && Total(v) && ValidState(cfg, st) && st.Present? && st.order == [] && Matches(v, cfg, st)
    ensures Matches(NodeGoneView(v, cfg, st.gateway), cfg, Absent)
    ensures OthersKept(v, NodeGoneView(v, cfg, st.gateway), cfg.node)
    ensures NodeGoneView(v, cfg, st.gateway)[Subnets] == Without(v[Subnets], cfg.texts.subnet)
  {
    var w := NodeGoneView(v, cfg, st.gateway);
    forall k: Key
      ensures k.Of(cfg.node) ==> w[k] == []
      ensures !k.Of(cfg.node) ==> w[k] == if k == Subnets then Without(v[k], cfg.texts.subnet) else v[k]
    {
      NodeGoneAt(v, cfg, st.gateway, k);
      if k.Of(cfg.node) { NodeGoneImage(cfg, st, k); }
    }
  }
}
