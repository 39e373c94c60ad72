/** What etcd holds after any run of CNI calls, with every key and value spelled out, in terms of the
    calls themselves: nothing for a node without pods, and otherwise the root namespace's records and,
    for every pod the calls leave, the namespace and device its ADD named and the address it reports. */
module RunRecords {
  import opened Text
  import opened Keys
  import opened Etcd
  import opened Ipv4
  import opened Subnet
  import opened NodeModel
  import opened NodeStore
  import opened Steps
  import opened ClusterObject
  import opened Records
  import opened Runs
  import opened Lifecycle

  /** The namespace and the device an ADD named. */
  datatype Ask = Ask(netns: string, nic: Name)

  /** What the ADDs of a node's pods named: the first one since the pod was last deleted. */
  function Asked(cs: seq<Call>, n: Name): map<Name, Ask> {
    if cs == [] then map[] else AskedAfter(Asked(cs[..|cs| - 1], n), cs[|cs| - 1], n)
  }

  function AskedAfter(before: map<Name, Ask>, c: Call, n: Name): map<Name, Ask> {
    match c
    case AddCall(m, cid, netns, nic) => if m == n && cid !in before then before[cid := Ask(netns, nic)] else before
    case DelCall(m, cid) => if m == n then before - {cid} else before
    case Refused => before
  }

  ghost predicate PodsAre(asked: map<Name, Ask>, st: NodeState) {
    && asked.Keys == (if st.Present? then st.pods.Keys else {})
    && forall p <- asked :: asked[p] == Ask(st.pods[p].netns, st.pods[p].nic)
  }

  lemma AddAsked(cfg: Config, st: NodeState, cid: Name, netns: string, nic: Name, next: NodeState,
                 asked: map<Name, Ask>, n: Name)
    requires cfg.Valid() && IsNetns(netns) && Added(cfg, st, cid, netns, nic, next) && PodsAre(asked, st)
    ensures PodsAre(AskedAfter(asked, AddCall(n, cid, netns, nic), n), next)
  {
    hide IsNetns, ShortNetns, HostFree, NamespaceFree;
  }

  lemma DelAsked(cfg: Config, st: NodeState, cid: Name, asked: map<Name, Ask>, n: Name)
    requires cfg.Valid() && ValidState(cfg, st) && PodsAre(asked, st)
    ensures Knows(st, cid) ==> IsNetns(st.pods[cid].netns)
    ensures PodsAre(AskedAfter(asked, DelCall(n, cid), n), Deleted(st, cid))
  {
    hide IsNetns, ShortNetns, WithoutName;
    KnownHasNetns(cfg, st, cid);
    if Knows(st, cid) { WithoutPodValid(cfg, st, cid); }
  }

  lemma StepAsked(cfgs: Cluster, w: World, c: Call, x: World, n: Name, asked: map<Name, Ask>)
    requires ValidCluster(cfgs) && Nodes(cfgs, w) && Step(cfgs, w, c, x) && n in cfgs && n in w.nodes && n in x.nodes
    requires PodsAre(asked, w.nodes[n])
    ensures PodsAre(AskedAfter(asked, c, n), x.nodes[n])
  {
    hide ViewOf, ValidState, ValidCluster, Nodes, StoreFor, Quiescent, Added, ValidPod, AddStep, DelStep, Deleted,
         PodsAre;
    match c
    case Refused =>
    case AddCall(m, cid, netns, nic) =>
      AddFacts(cfgs, w, c, x);
      NodeAt(cfgs, w, m);
      if m == n { AddAsked(cfgs[m], w.nodes[m], cid, netns, nic, x.nodes[m], asked, n); }
    case DelCall(m, cid) =>
      DelFacts(cfgs, w, c, x);
      NodeAt(cfgs, w, m);
      if m == n { DelAsked(cfgs[m], w.nodes[m], cid, asked, n); }
  }

  /** The pods of a node are the ones its calls asked for. */
  lemma {:induction false} AskedIs(cfgs: Cluster, base: seq<string>, ws: seq<World>, cs: seq<Call>, n: Name)
    requires ValidCluster(cfgs) && Run(cfgs, ws, cs) && Inv(cfgs, base, ws[0]) && n in cfgs
    requires ws[0].nodes[n].Absent?
    ensures n in ws[|cs|].nodes && PodsAre(Asked(cs, n), ws[|cs|].nodes[n])
  {
    hide Step, ValidCluster, StoreFor, Listing, AskedAfter, PodsAre;
    RunKeepsInv(cfgs, base, ws, cs, |cs|);
    if cs != [] {
      var k := |cs| - 1;
      RunKeepsInv(cfgs, base, ws, cs, k);
      AskedIs(cfgs, base, ws[..|cs|], cs[..k], n);
      NodeAt(cfgs, ws[k], n);
      StepAsked(cfgs, ws[k], cs[k], ws[|cs|], n, Asked(cs[..k], n));
    } else {
      assert PodsAre(map[], ws[0].nodes[n]) by { NoneAsked(); }
    }
  }

  lemma NoneAsked()
    ensures PodsAre(map[], Absent)
  {
  }

  // ---------------------------------------------------------------- the texts

  /** A pod's records are those its ADD asked for, with the address of a host that is not the
      gateway's, and the default route via the first host. */
  ghost predicate PodHolds(kv: Store, cfg: Config, asked: map<Name, Ask>, p: Name, address: string) {
    && p in asked && IsNetns(asked[p].netns) && cfg.cidr.addr + 1 < 0x1_0000_0000 && cfg.cidr.prefix <= 32
    && PodRecorded(kv, cfg.node, p, asked[p].netns, ShortNetns(asked[p].netns), asked[p].nic, address,
                   RenderQuad(cfg.cidr.addr + 1))
    && exists a: nat :: cfg.cidr.addr + 1 < a < cfg.cidr.addr + Pow2(32 - cfg.cidr.prefix) - 1
                        && HostIs(a, cfg.cidr.prefix, address)
  }

  ghost predicate HostIs(a: nat, prefix: nat, address: string) {
    a < 0x1_0000_0000 && address == WithPrefix(a, prefix)
  }

  /** Everything etcd holds for one node: `live` are its pods, oldest first. */
  ghost predicate NodeHolds(kv: Store, cfg: Config, live: seq<Name>, asked: map<Name, Ask>, vtep: bool) {
    if live == [] then NodeErased(kv, cfg.node) else
      var addresses := ListOf(kv, "/ohno/addresses/" + cfg.node);
      && NodeRecorded(kv, cfg, 1, vtep)
      && ListOf(kv, "/ohno/node/" + cfg.node + "/pod") == ["host"] + live
      && |addresses| == 1 + |live| && Distinct(addresses)
      && HostIs(cfg.cidr.addr + 1, cfg.cidr.prefix, addresses[0])
      && forall i | 0 <= i < |live| :: PodHolds(kv, cfg, asked, live[i], addresses[i + 1])
  }

  lemma ListsSpelled(cfg: Config, kv: Store, st: NodeState)
    requires cfg.Faithful() && StoreFor(kv, cfg, st) && st.Present? && st.gateway == 1
    ensures ListOf(kv, "/ohno/node/" + cfg.node + "/pod") == ["host"] + st.order
    ensures ListOf(kv, "/ohno/addresses/" + cfg.node) == [cfg.texts.host(1)] + HostTexts(cfg, st.order, st.pods)
    ensures Distinct(ListOf(kv, "/ohno/addresses/" + cfg.node))
  {
    hide Stored, ViewOf, KeyText, TextsOf, TextAt, Tokens, ValidState, HostTextsDiffer;
    FaithfulTextsDiffer(cfg);
    HostTextsDistinct(cfg, st);
    PodsAreNames(cfg, st, ViewOf(kv));
    ViewTotal(kv);
    AddressList(cfg, ViewOf(kv), st);
    assert Addresses(cfg.node).Of(cfg.node);
    KeySpelling(Pods(cfg.node));
    KeySpelling(Addresses(cfg.node));
    EntryText(kv, Pods(cfg.node));
    EntryText(kv, Addresses(cfg.node));
  }

  lemma PodSpelled(cfg: Config, kv: Store, st: NodeState, asked: map<Name, Ask>, p: Name)
    requires cfg.Faithful() && StoreFor(kv, cfg, st) && Knows(st, p) && st.gateway == 1 && PodsAre(asked, st)
    ensures PodHolds(kv, cfg, asked, p, cfg.texts.host(st.pods[p].host))
    ensures cfg.cidr.addr + 1 < 0x1_0000_0000
    ensures ResultOf(cfg, st, p) == CniResult(cfg.texts.host(st.pods[p].host), RenderQuad(cfg.cidr.addr + 1))
  {
    hide Stored, ViewOf, TextsOf, ValidState, Matches, Listed, IsNetns, ShortNetns, PodRecorded, RenderQuad, WithPrefix,
         HostAddress, Pow2;
    PodHost(cfg, st, p);
    PodStateTexts(cfg, kv, st, p);
    HostText(cfg, 1);
    HostText(cfg, st.pods[p].host);
    ResultText(cfg, st.pods[p].host, 1);
    assert HostIs(cfg.cidr.addr + st.pods[p].host, cfg.cidr.prefix, cfg.texts.host(st.pods[p].host));
  }

  /** What an ADD reports for each pod is its place in the address list, and the first host. */
  ghost predicate Reported(kv: Store, cfg: Config, st: NodeState, live: seq<Name>)
    requires cfg.Faithful()
  {
    var addresses := ListOf(kv, "/ohno/addresses/" + cfg.node);
    && |live| <= |addresses| && cfg.cidr.addr + 1 < 0x1_0000_0000
    && (live != [] ==> |addresses| == 1 + |live|)
    && forall i | 0 <= i < |live| ::
         Knows(st, live[i]) && ResultOf(cfg, st, live[i]) == CniResult(addresses[i + 1], RenderQuad(cfg.cidr.addr + 1))
  }

  /** The `i`-th pod's part of both. */
  ghost predicate PodIsAt(kv: Store, cfg: Config, st: NodeState, asked: map<Name, Ask>, i: nat)
    requires cfg.Faithful() && st.Present? && i < |st.order|
  {
    var addresses := ListOf(kv, "/ohno/addresses/" + cfg.node);
    && i + 1 < |addresses| && cfg.cidr.addr + 1 < 0x1_0000_0000 && Knows(st, st.order[i])
    && PodHolds(kv, cfg, asked, st.order[i], addresses[i + 1])
    && ResultOf(cfg, st, st.order[i]) == CniResult(addresses[i + 1], RenderQuad(cfg.cidr.addr + 1))
  }

  lemma EachPod(cfg: Config, kv: Store, st: NodeState, asked: map<Name, Ask>, i: nat)
    requires cfg.Faithful() && StoreFor(kv, cfg, st) && st.Present? && st.gateway == 1 && PodsAre(asked, st)
    requires i < |st.order|
    ensures PodIsAt(kv, cfg, st, asked, i)
  {
    hide Stored, ViewOf, TextsOf, Matches, PodHolds, PodsAre, RenderQuad, HostAddress, TextAt, Tokens, ResultOf,
         Distinct, ValidPod;
    assert st.order[i] in st.order;
    ListsSpelled(cfg, kv, st);
    PodSpelled(cfg, kv, st, asked, st.order[i]);
  }

  lemma PresentHolds(cfg: Config, kv: Store, st: NodeState, asked: map<Name, Ask>)
    requires cfg.Faithful() && StoreFor(kv, cfg, st) && st.Present? && st.order != [] && PodsAre(asked, st)
    requires st.gateway == 1
    ensures NodeHolds(kv, cfg, st.order, asked, st.vtep) && Reported(kv, cfg, st, st.order)
  {
    hide StoreFor, TextsOf, NodeErased, NodeRecorded, PodHolds, PodsAre, RenderQuad, WithPrefix, HostAddress, ListOf,
         ResultOf, Distinct, ValidState, PodIsAt;
    HostText(cfg, 1);
    NodeStateTexts(cfg, kv, st);
    ListsSpelled(cfg, kv, st);
    forall i | 0 <= i < |st.order| ensures PodIsAt(kv, cfg, st, asked, i) { EachPod(cfg, kv, st, asked, i); }
    AllPods(cfg, kv, st, asked);
  }

  lemma AllPods(cfg: Config, kv: Store, st: NodeState, asked: map<Name, Ask>)
    requires cfg.Faithful() && st.Present? && forall i | 0 <= i < |st.order| :: PodIsAt(kv, cfg, st, asked, i)
    requires |ListOf(kv, "/ohno/addresses/" + cfg.node)| == 1 + |st.order| && cfg.cidr.addr + 1 < 0x1_0000_0000
    ensures Reported(kv, cfg, st, st.order)
    ensures forall i | 0 <= i < |st.order| ::
      PodHolds(kv, cfg, asked, st.order[i], ListOf(kv, "/ohno/addresses/" + cfg.node)[i + 1])
  {
    hide TextsOf, PodHolds, RenderQuad, HostAddress, ListOf, ResultOf;
    var addresses := ListOf(kv, "/ohno/addresses/" + cfg.node);
    forall i | 0 <= i < |st.order|
      ensures Knows(st, st.order[i]) && PodHolds(kv, cfg, asked, st.order[i], addresses[i + 1])
      ensures ResultOf(cfg, st, st.order[i]) == CniResult(addresses[i + 1], RenderQuad(cfg.cidr.addr + 1))
    {
      assert PodIsAt(kv, cfg, st, asked, i);
    }
  }

  /** The store of a state, spelled out. */
  lemma StateHolds(cfg: Config, kv: Store, st: NodeState, asked: map<Name, Ask>)
    requires cfg.Faithful() && StoreFor(kv, cfg, st) && Quiescent(cfg, st) && PodsAre(asked, st)
    requires st.Present? ==> st.gateway == 1
    ensures NodeHolds(kv, cfg, Order(st), asked, HasVtep(st)) && Reported(kv, cfg, st, Order(st))
  {
    hide StoreFor, TextsOf, NodeErased, PodHolds, PodsAre, RenderQuad, WithPrefix, HostAddress, ListOf, ResultOf,
         ValidState;
    HostText(cfg, 1);
    if st.Absent? {
      AbsentTexts(cfg, kv);
    } else {
      PresentHolds(cfg, kv, st, asked);
    }
  }

  lemma NodeIs(cfgs: Cluster, w: World, n: Name)
    requires ValidCluster(cfgs) && Nodes(cfgs, w) && n in cfgs
    ensures n in w.nodes && cfgs[n].Faithful() && cfgs[n].node == n && StoreFor(w.kv, cfgs[n], w.nodes[n])
    ensures Quiescent(cfgs[n], w.nodes[n]) && (w.nodes[n].Present? ==> w.nodes[n].gateway == 1)
  {
    hide StoreFor, Quiescent, Disjoint, TextsOf;
  }

  /** After any run, on every node that started empty: etcd holds exactly this, and the address each
      pod's ADD reports is the one that is listed and recorded for it. */
  lemma {:induction false} RecordsHold(cfgs: Cluster, base: seq<string>, ws: seq<World>, cs: seq<Call>, n: Name)
    requires ValidCluster(cfgs) && Run(cfgs, ws, cs) && Inv(cfgs, base, ws[0]) && n in cfgs
    requires ws[0].nodes[n].Absent?
    ensures n in ws[|cs|].nodes
    ensures NodeHolds(ws[|cs|].kv, cfgs[n], Live(cs, n), Asked(cs, n), VtepLeft(cs, n))
    ensures Reported(ws[|cs|].kv, cfgs[n], ws[|cs|].nodes[n], Live(cs, n))
  {
    hide Nodes, Listing, Step, ValidCluster, NodeHolds, Reported, PodsAre, HasVtep, Quiescent, StoreFor, Live, Asked,
         VtepLeft, Order;
    RunKeepsInv(cfgs, base, ws, cs, |cs|);
    LiveIsOrder(cfgs, base, ws, cs, n);
    VtepTraced(cfgs, base, ws, cs, n);
    AskedIs(cfgs, base, ws, cs, n);
    NodeIs(cfgs, ws[|cs|], n);
    StateHolds(cfgs[n], ws[|cs|].kv, ws[|cs|].nodes[n], Asked(cs, n));
  }

  /** The address an ADD reports for a live pod is the one Conservation finds for it: it is the one its
      device has, in the pod's place of the address list. */
  lemma {:induction false} ReportIsWitness(cfgs: Cluster, base: seq<string>, ws: seq<World>, cs: seq<Call>, n: Name,
                                           i: nat)
    requires ValidCluster(cfgs) && Run(cfgs, ws, cs) && Inv(cfgs, base, ws[0]) && n in cfgs
    requires ws[0].nodes[n].Absent? && i < |Live(cs, n)|
    ensures n in ws[|cs|].nodes && Knows(ws[|cs|].nodes[n], Live(cs, n)[i]) && Total(ViewOf(ws[|cs|].kv))
    ensures var address := ResultOf(cfgs[n], ws[|cs|].nodes[n], Live(cs, n)[i]).address;
            && |ViewOf(ws[|cs|].kv)[Addresses(n)]| == 1 + |Live(cs, n)|
            && ViewOf(ws[|cs|].kv)[Addresses(n)][i + 1] == address
            && HasAddress(ViewOf(ws[|cs|].kv), n, Live(cs, n)[i], address)
  {
    hide Nodes, Listing, Step, NodeHolds, Quiescent, Live, Asked, VtepLeft, ViewOf, KeyText, Stored, Tokens, TextAt,
         RenderQuad, HasAddress, ResultOf, Matches, ValidState, Disjoint, TextsOf, Distinct;
    RunKeepsInv(cfgs, base, ws, cs, |cs|);
    NodeIs(cfgs, ws[|cs|], n);
    Conservation(cfgs, base, ws, cs, n);
    RecordsHold(cfgs, base, ws, cs, n);
    EntryText(ws[|cs|].kv, Addresses(n));
    KeySpelling(Addresses(n));
  }

  // ---------------------------------------------------------------- the shared list

  /** The shared list goes on with the podCIDRs of the nodes that have pods, each of them once. */
  ghost predicate SubnetsHold(kv: Store, cfgs: Cluster, base: seq<string>, cs: seq<Call>) {
    var list := ListOf(kv, "/ohno/subnets");
    && |base| <= |list| && list[..|base|] == base && Distinct(list[|base|..])
    && (forall x <- list[|base|..] :: exists n <- cfgs :: SubnetIs(cfgs[n], x))
    && (forall n <- cfgs, x: string | SubnetIs(cfgs[n], x) :: x in list[|base|..] <==> Live(cs, n) != [])
  }

  ghost predicate SubnetIs(cfg: Config, text: string) {
    HostIs(cfg.cidr.addr, cfg.cidr.prefix, text)
  }

  lemma SubnetIsText(cfg: Config)
    requires cfg.Faithful()
    ensures forall x: string :: SubnetIs(cfg, x) <==> x == cfg.texts.subnet
  {
    hide TextsOf, WithPrefix;
    NodeTexts(cfg);
  }

  lemma TextsDistinct(cfgs: Cluster, nodes: seq<Name>)
    requires ValidCluster(cfgs) && Distinct(nodes) && forall n <- nodes :: n in cfgs
    ensures Distinct(SubnetTexts(cfgs, nodes))
    ensures forall n <- cfgs :: cfgs[n].texts.subnet in SubnetTexts(cfgs, nodes) <==> n in nodes
  {
    hide TextsOf, Disjoint;
    var xs := SubnetTexts(cfgs, nodes);
    forall i, j | 0 <= i < j < |xs|
      ensures xs[i] != xs[j]
    {
      assert nodes[i] in nodes && nodes[j] in nodes;
      SubnetTextsDiffer(cfgs[nodes[i]], cfgs[nodes[j]]);
    }
    forall n <- cfgs
      ensures cfgs[n].texts.subnet in xs <==> n in nodes
    {
      if n in nodes {
        var i :| 0 <= i < |nodes| && nodes[i] == n;
        assert xs[i] == cfgs[n].texts.subnet;
      }
      forall i | 0 <= i < |xs| && nodes[i] != n
        ensures xs[i] != cfgs[n].texts.subnet
      {
        assert nodes[i] in nodes;
        SubnetTextsDiffer(cfgs[nodes[i]], cfgs[n]);
      }
    }
  }

  lemma ListSpelled(cfgs: Cluster, base: seq<string>, w: World)
    requires ValidCluster(cfgs) && cfgs != map[] && Inv(cfgs, base, w)
    ensures ListOf(w.kv, "/ohno/subnets") == base + SubnetTexts(cfgs, w.created)
  {
    hide ViewOf, TextsOf, Disjoint, KeyText, ValidState, Matches, Stored, TextAt, Tokens, Quiescent;
    var n :| n in cfgs;
    assert StoreFor(w.kv, cfgs[n], w.nodes[n]);
    KeySpelling(Subnets);
    EntryText(w.kv, Subnets);
  }

  lemma SubnetsAfterRun(cfgs: Cluster, base: seq<string>, ws: seq<World>, cs: seq<Call>)
    requires ValidCluster(cfgs) && Run(cfgs, ws, cs) && Inv(cfgs, base, ws[0]) && cfgs != map[]
    requires forall n <- cfgs :: ws[0].nodes[n].Absent?
    ensures SubnetsHold(ws[|cs|].kv, cfgs, base, cs)
  {
    hide Nodes, Step, ValidCluster, Quiescent, StoreFor, Live, Order, ListOf, SubnetIs;
    RunKeepsInv(cfgs, base, ws, cs, |cs|);
    var w := ws[|cs|];
    ListSpelled(cfgs, base, w);
    TextsDistinct(cfgs, w.created);
    var xs := SubnetTexts(cfgs, w.created);
    assert (base + xs)[|base|..] == xs && (base + xs)[..|base|] == base;
    forall n <- cfgs
      ensures n in w.created <==> Live(cs, n) != []
      ensures forall x: string :: SubnetIs(cfgs[n], x) <==> x == cfgs[n].texts.subnet
    {
      LiveIsOrder(cfgs, base, ws, cs, n);
      NodeIs(cfgs, w, n);
      HasPods(cfgs[n], w.nodes[n]);
      SubnetIsText(cfgs[n]);
    }
    forall x <- xs
      ensures exists n <- cfgs :: SubnetIs(cfgs[n], x)
    {
      var i :| 0 <= i < |xs| && xs[i] == x;
      assert w.created[i] in w.created;
    }
  }

  lemma HasPods(cfg: Config, st: NodeState)
    requires cfg.Valid() && Quiescent(cfg, st)
    ensures st.Present? <==> Order(st) != []
  {
  }
}
