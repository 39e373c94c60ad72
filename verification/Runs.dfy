/** Runs of CNI calls over a cluster: any number of nodes, each with its own podCIDR, in any order.
    Each call is a step of `Cni.Add` or `Cni.Del` with reliable etcd, or a refused ADD. */
module Runs {
  import opened Keys
  import opened Etcd
  import opened Ipv4
  import opened Subnet
  import opened Ipam
  import opened Storage
  import opened NodeModel
  import opened NodeStore
  import opened Steps

  datatype Call =
    | AddCall(node: Name, cid: Name, netns: string, nic: Name)
    | DelCall(node: Name, cid: Name)
    | Refused

  /** The store, the state of every node, and the nodes that exist, oldest first. */
  datatype World = World(kv: map<string, string>, nodes: map<Name, NodeState>, created: seq<Name>)

  type Cluster = map<Name, Config>

  /** No podCIDR is held by two nodes. */
  ghost predicate ValidCluster(cfgs: Cluster) {
    && (forall n <- cfgs :: cfgs[n].node == n && cfgs[n].Faithful())
    && (forall m <- cfgs, n <- cfgs :: m != n ==> Disjoint(cfgs[m].cidr, cfgs[n].cidr))
  }

  ghost function SubnetTexts(cfgs: Cluster, nodes: seq<Name>): (r: seq<string>)
    requires forall n <- nodes :: n in cfgs
    ensures |r| == |nodes| && forall i | 0 <= i < |r| :: r[i] == cfgs[nodes[i]].texts.subnet
  {
    seq(|nodes|, i requires 0 <= i < |nodes| => cfgs[nodes[i]].texts.subnet)
  }

  // ---------------------------------------------------------------- the invariant

  ghost predicate Nodes(cfgs: Cluster, w: World)
    requires ValidCluster(cfgs)
  {
    && w.nodes.Keys == cfgs.Keys
    && (forall n <- cfgs :: StoreFor(w.kv, cfgs[n], w.nodes[n]) && Quiescent(cfgs[n], w.nodes[n]))
    && (forall n <- cfgs :: w.nodes[n].Present? ==> w.nodes[n].gateway == 1)
  }

  /** `base` is what the shared list held before the run. */
  ghost predicate Listing(cfgs: Cluster, base: seq<string>, w: World)
    requires ValidCluster(cfgs) && w.nodes.Keys == cfgs.Keys
  {
    && Distinct(w.created) && (forall n <- w.created :: n in cfgs)
    && (forall n <- cfgs :: n in w.created <==> w.nodes[n].Present?)
    && ViewOf(w.kv)[Subnets] == base + SubnetTexts(cfgs, w.created)
  }

  ghost predicate Inv(cfgs: Cluster, base: seq<string>, w: World)
    requires ValidCluster(cfgs)
  {
    Nodes(cfgs, w) && Listing(cfgs, base, w) && forall n <- cfgs :: cfgs[n].texts.subnet !in base
  }

  // ---------------------------------------------------------------- steps and runs

  ghost predicate Step(cfgs: Cluster, w: World, c: Call, x: World)
    requires ValidCluster(cfgs)
  {
    match c
    case Refused => x == w
    case AddCall(n, cid, netns, nic) =>
      && n in cfgs && n in w.nodes && n in x.nodes && Listed(w.nodes[n])
      && IsNetns(netns) && cid != HOST && SEPARATOR !in nic
      && AddStep(w.kv, x.kv, cfgs[n], w.nodes[n], cid, netns, nic, x.nodes[n])
      && x.nodes == w.nodes[n := x.nodes[n]]
      && x.created == (if w.nodes[n].Absent? then w.created + [n] else w.created)
    case DelCall(n, cid) =>
      && n in cfgs && n in w.nodes && ValidState(cfgs[n], w.nodes[n]) && cid != HOST
      && DelStep(w.kv, x.kv, cfgs[n], w.nodes[n], cid)
      && x.nodes == w.nodes[n := Deleted(w.nodes[n], cid)]
      && x.created == (if x.nodes[n].Absent? then WithoutName(w.created, n) else w.created)
  }

  ghost predicate Run(cfgs: Cluster, ws: seq<World>, cs: seq<Call>)
    requires ValidCluster(cfgs)
  {
    |ws| == |cs| + 1 && forall i | 0 <= i < |cs| :: Step(cfgs, ws[i], cs[i], ws[i + 1])
  }

  /** A store with no entry for any of the nodes is where runs start. */
  lemma StartInv(cfgs: Cluster, kv: map<string, string>)
    requires ValidCluster(cfgs) && Stored(kv)
    requires forall k: Key :: k != Subnets && k.node in cfgs ==> k in ViewOf(kv) && ViewOf(kv)[k] == []
    requires Subnets in ViewOf(kv) && forall n <- cfgs :: cfgs[n].texts.subnet !in ViewOf(kv)[Subnets]
    ensures Inv(cfgs, ViewOf(kv)[Subnets], World(kv, map n: Name | n in cfgs :: Absent, []))
  {
    hide ViewOf, Stored, Disjoint, TextsOf;
    assert ViewOf(kv)[Subnets] + [] == ViewOf(kv)[Subnets];
  }

  // ---------------------------------------------------------------- every step keeps the invariant

  /** A call on one node leaves what the store holds for the others. */
  lemma OtherNodes(kv: map<string, string>, after: map<string, string>, n: Name, other: Config, st: NodeState)
    requires other.Valid() && other.node != n && StoreFor(kv, other, st) && Kept(kv, after, n)
    ensures StoreFor(after, other, st)
  {
    hide ViewOf, Stored, Foreign, Image, ValidState, Listed;
    var v, w := ViewOf(kv), ViewOf(after);
    forall k: Key | k.Of(other.node)
      ensures k in w && w[k] == Image(other, st, k)
    {
      assert k != Subnets && !k.Of(n);
    }
  }

  lemma AddKeepsNode(before: map<string, string>, after: map<string, string>, cfg: Config, st: NodeState, cid: Name,
                     netns: string, nic: Name, next: NodeState)
    requires cfg.Faithful() && IsNetns(netns) && Listed(st) && Quiescent(cfg, st) && (st.Present? ==> st.gateway == 1)
    requires AddStep(before, after, cfg, st, cid, netns, nic, next)
    ensures Quiescent(cfg, next) && next.Present? && next.gateway == 1
  {
    hide ViewOf, Stored, Foreign, Image, ValidState, OthersKept, Used, HostFree, NamespaceFree, FirstFree, Matches;
  }

  lemma DelKeepsNode(before: map<string, string>, after: map<string, string>, cfg: Config, st: NodeState, cid: Name)
    requires cfg.Faithful() && Quiescent(cfg, st) && (st.Present? ==> st.gateway == 1)
    requires DelStep(before, after, cfg, st, cid)
    ensures var next := Deleted(st, cid); Quiescent(cfg, next) && (next.Present? ==> next.gateway == 1)
  {
    hide ViewOf, Stored, Foreign, Image, ValidState, OthersKept, Matches, ValidPod, WithoutName;
  }

  /** A call changes one node: its state, and its entries in the store. */
  lemma StepOnOne(cfgs: Cluster, w: World, c: Call, x: World)
    requires ValidCluster(cfgs) && Nodes(cfgs, w) && Step(cfgs, w, c, x) && !c.Refused?
    ensures c.node in cfgs && c.node in x.nodes && x.nodes == w.nodes[c.node := x.nodes[c.node]]
    ensures Kept(w.kv, x.kv, c.node) && StoreFor(x.kv, cfgs[c.node], x.nodes[c.node])
    ensures Quiescent(cfgs[c.node], x.nodes[c.node]) && (x.nodes[c.node].Present? ==> x.nodes[c.node].gateway == 1)
  {
    hide ViewOf, Kept, StoreFor, Quiescent, Added, Disjoint, FirstFree, TextsOf, Deleted, Used, ValidState, ValidPod;
    var n := c.node;
    assert cfgs[n].node == n;
    if c.AddCall? {
      AddKeepsNode(w.kv, x.kv, cfgs[n], w.nodes[n], c.cid, c.netns, c.nic, x.nodes[n]);
    } else {
      DelKeepsNode(w.kv, x.kv, cfgs[n], w.nodes[n], c.cid);
    }
  }

  lemma StepKeepsNodes(cfgs: Cluster, w: World, c: Call, x: World)
    requires ValidCluster(cfgs) && Nodes(cfgs, w) && Step(cfgs, w, c, x)
    ensures Nodes(cfgs, x)
  {
    hide StoreFor, Quiescent, Kept, Disjoint, TextsOf, AddStep, DelStep, ValidState, Listed;
    if !c.Refused? {
      StepOnOne(cfgs, w, c, x);
      forall m <- cfgs
        ensures StoreFor(x.kv, cfgs[m], x.nodes[m]) && Quiescent(cfgs[m], x.nodes[m])
        ensures x.nodes[m].Present? ==> x.nodes[m].gateway == 1
      {
        assert cfgs[m].node == m;
        if m != c.node { OtherNodes(w.kv, x.kv, c.node, cfgs[m], w.nodes[m]); }
      }
    }
  }

  lemma DisjointDiffer(c: Cidr, d: Cidr)
    requires c.Valid() && d.Valid() && Disjoint(c, d)
    ensures c != d
  {
    assert Contains(c, c.addr);
  }

  lemma SubnetTextsDiffer(c: Config, d: Config)
    requires c.Faithful() && d.Faithful() && Disjoint(c.cidr, d.cidr)
    ensures c.texts.subnet != d.texts.subnet
  {
    hide RenderCidr;
    DisjointDiffer(c.cidr, d.cidr);
    if c.texts.subnet == d.texts.subnet { RenderCidrInjective(c.cidr, d.cidr); }
  }

  lemma SubnetTextsOfMore(cfgs: Cluster, nodes: seq<Name>, n: Name)
    requires n in cfgs && forall m <- nodes :: m in cfgs
    ensures SubnetTexts(cfgs, nodes + [n]) == SubnetTexts(cfgs, nodes) + [cfgs[n].texts.subnet]
  {
  }

  lemma {:induction false} SubnetTextsOfFewer(cfgs: Cluster, nodes: seq<Name>, n: Name)
    requires n in cfgs && forall m <- nodes :: m in cfgs
    requires forall m <- nodes :: m != n ==> cfgs[m].texts.subnet != cfgs[n].texts.subnet
    ensures forall m <- WithoutName(nodes, n) :: m in cfgs
    ensures SubnetTexts(cfgs, WithoutName(nodes, n)) == Without(SubnetTexts(cfgs, nodes), cfgs[n].texts.subnet)
  {
    if nodes != [] {
      SubnetTextsOfFewer(cfgs, nodes[1..], n);
      assert SubnetTexts(cfgs, nodes)[1..] == SubnetTexts(cfgs, nodes[1..]);
      if nodes[0] != n {
        var rest := WithoutName(nodes[1..], n);
        assert SubnetTexts(cfgs, [nodes[0]] + rest) == [cfgs[nodes[0]].texts.subnet] + SubnetTexts(cfgs, rest);
      }
    }
  }

  lemma {:induction false} WithoutAfterBase(base: seq<string>, xs: seq<string>, x: string)
    requires x !in base
    ensures Without(base + xs, x) == base + Without(xs, x)
  {
    if base == [] {
      assert base + xs == xs && base + Without(xs, x) == Without(xs, x);
    } else {
      WithoutAfterBase(base[1..], xs, x);
      assert (base + xs)[1..] == base[1..] + xs;
    }
  }

  lemma {:induction false} WithoutNameAbsent(xs: seq<Name>, x: Name)
    requires x !in xs
    ensures WithoutName(xs, x) == xs
  {
    if xs != [] { WithoutNameAbsent(xs[1..], x); }
  }

  lemma {:induction false} NodeUnlisted(cfgs: Cluster, base: seq<string>, w: World, n: Name)
    requires ValidCluster(cfgs) && Inv(cfgs, base, w) && n in cfgs
    ensures Distinct(WithoutName(w.created, n))
    ensures forall m: Name :: m in WithoutName(w.created, n) <==> m in w.created && m != n
    ensures Without(ViewOf(w.kv)[Subnets], cfgs[n].texts.subnet) == base + SubnetTexts(cfgs, WithoutName(w.created, n))
    ensures w.nodes[n].Absent? ==> WithoutName(w.created, n) == w.created
  {
    hide ViewOf, ValidState, Image, Matches, StoreFor, Disjoint, TextsOf;
    ViewTotal(w.kv);
    WithoutNameProps(w.created, n);
    forall m <- w.created | m != n
      ensures cfgs[m].texts.subnet != cfgs[n].texts.subnet
    {
      SubnetTextsDiffer(cfgs[m], cfgs[n]);
    }
    SubnetTextsOfFewer(cfgs, w.created, n);
    WithoutAfterBase(base, SubnetTexts(cfgs, w.created), cfgs[n].texts.subnet);
    if w.nodes[n].Absent? { WithoutNameAbsent(w.created, n); }
  }

  /** One more node, at the end of the list. */
  lemma ListingMore(cfgs: Cluster, base: seq<string>, w: World, n: Name, x: World)
    requires ValidCluster(cfgs) && w.nodes.Keys == cfgs.Keys && Listing(cfgs, base, w)
    requires n in cfgs && w.nodes[n].Absent?
    requires n in x.nodes && x.nodes[n].Present? && x.nodes == w.nodes[n := x.nodes[n]] && x.created == w.created + [n]
    requires Subnets in ViewOf(w.kv) && Subnets in ViewOf(x.kv)
    requires ViewOf(x.kv)[Subnets] == ViewOf(w.kv)[Subnets] + [cfgs[n].texts.subnet]
    ensures x.nodes.Keys == cfgs.Keys && Listing(cfgs, base, x)
  {
    hide ViewOf, ValidCluster, SubnetTexts;
    assert n !in w.created;
    SubnetTextsOfMore(cfgs, w.created, n);
  }

  lemma ListingSame(cfgs: Cluster, base: seq<string>, w: World, n: Name, x: World)
    requires ValidCluster(cfgs) && w.nodes.Keys == cfgs.Keys && Listing(cfgs, base, w) && n in cfgs
    requires n in x.nodes && (x.nodes[n].Present? <==> w.nodes[n].Present?) && x.nodes == w.nodes[n := x.nodes[n]]
    requires x.created == w.created && Subnets in ViewOf(w.kv) && Subnets in ViewOf(x.kv)
    requires ViewOf(x.kv)[Subnets] == ViewOf(w.kv)[Subnets]
    ensures x.nodes.Keys == cfgs.Keys && Listing(cfgs, base, x)
  {
    hide ViewOf, ValidCluster, SubnetTexts;
  }

  /** One node less. */
  lemma {:induction false} ListingFewer(cfgs: Cluster, base: seq<string>, w: World, n: Name, x: World)
    requires ValidCluster(cfgs) && Inv(cfgs, base, w) && n in cfgs
    requires n in x.nodes && x.nodes[n].Absent? && x.nodes == w.nodes[n := x.nodes[n]]
    requires x.created == WithoutName(w.created, n)
    requires Subnets in ViewOf(w.kv) && Subnets in ViewOf(x.kv)
    requires ViewOf(x.kv)[Subnets] == Without(ViewOf(w.kv)[Subnets], cfgs[n].texts.subnet)
    ensures x.nodes.Keys == cfgs.Keys && Listing(cfgs, base, x)
  {
    hide ViewOf, ValidCluster, SubnetTexts, StoreFor, Quiescent, Without, WithoutName;
    NodeUnlisted(cfgs, base, w, n);
  }

  /** What an ADD is to the list of nodes. */
  lemma AddFacts(cfgs: Cluster, w: World, c: Call, x: World)
    requires ValidCluster(cfgs) && c.AddCall? && Step(cfgs, w, c, x)
    ensures c.node in cfgs && c.node in w.nodes && c.node in x.nodes && IsNetns(c.netns)
    ensures Added(cfgs[c.node], w.nodes[c.node], c.cid, c.netns, c.nic, x.nodes[c.node])
    ensures x.nodes == w.nodes[c.node := x.nodes[c.node]] && x.nodes[c.node].Present?
    ensures x.created == (if w.nodes[c.node].Absent? then w.created + [c.node] else w.created)
    ensures Subnets in ViewOf(w.kv) && Subnets in ViewOf(x.kv)
    ensures ViewOf(x.kv)[Subnets] ==
            ViewOf(w.kv)[Subnets] + (if w.nodes[c.node].Absent? then [cfgs[c.node].texts.subnet] else [])
  {
    hide ViewOf, StoreFor, Kept, Disjoint, FirstFree, TextsOf, Used, HostFree, NamespaceFree, ValidState, IsNetns,
         ShortNetns, Listed;
    ViewTotal(w.kv);
    ViewTotal(x.kv);
  }

  /** What a DEL is. */
  lemma DelFacts(cfgs: Cluster, w: World, c: Call, x: World)
    requires ValidCluster(cfgs) && c.DelCall? && Step(cfgs, w, c, x)
    ensures c.node in cfgs && c.node in w.nodes && c.node in x.nodes && ValidState(cfgs[c.node], w.nodes[c.node])
    ensures Knows(w.nodes[c.node], c.cid) ==> ValidPod(cfgs[c.node], w.nodes[c.node], c.cid)
    ensures x.nodes[c.node] == Deleted(w.nodes[c.node], c.cid) && x.nodes == w.nodes[c.node := x.nodes[c.node]]
    ensures w.nodes[c.node].Absent? ==> x.nodes[c.node].Absent?
    ensures x.created == (if x.nodes[c.node].Absent? then WithoutName(w.created, c.node) else w.created)
    ensures Subnets in ViewOf(w.kv) && Subnets in ViewOf(x.kv)
    ensures ViewOf(x.kv)[Subnets] ==
            (if w.nodes[c.node].Present? && x.nodes[c.node].Absent?
             then Without(ViewOf(w.kv)[Subnets], cfgs[c.node].texts.subnet)
             else ViewOf(w.kv)[Subnets])
  {
    hide ViewOf, StoreFor, Kept, Disjoint, TextsOf, ValidState, ValidPod, WithoutPod, Without, WithoutName;
    ViewTotal(w.kv);
    ViewTotal(x.kv);
  }

  lemma AddKeepsListing(cfgs: Cluster, base: seq<string>, w: World, c: Call, x: World)
    requires ValidCluster(cfgs) && Inv(cfgs, base, w) && c.AddCall? && Step(cfgs, w, c, x) && Nodes(cfgs, x)
    ensures Listing(cfgs, base, x)
  {
    hide ViewOf, ValidCluster, Step, StoreFor, Quiescent, Listing, Added;
    AddFacts(cfgs, w, c, x);
    if w.nodes[c.node].Absent? {
      ListingMore(cfgs, base, w, c.node, x);
    } else {
      assert ViewOf(w.kv)[Subnets] + [] == ViewOf(w.kv)[Subnets];
      ListingSame(cfgs, base, w, c.node, x);
    }
  }

  lemma DelKeepsListing(cfgs: Cluster, base: seq<string>, w: World, c: Call, x: World)
    requires ValidCluster(cfgs) && Inv(cfgs, base, w) && c.DelCall? && Step(cfgs, w, c, x) && Nodes(cfgs, x)
    ensures Listing(cfgs, base, x)
  {
    hide ViewOf, ValidCluster, Step, StoreFor, Quiescent, Listing, Deleted, ValidState, ValidPod, Without, WithoutName;
    DelFacts(cfgs, w, c, x);
    if w.nodes[c.node].Absent? {
      NodeUnlisted(cfgs, base, w, c.node);
      ListingSame(cfgs, base, w, c.node, x);
    } else if x.nodes[c.node].Absent? {
      ListingFewer(cfgs, base, w, c.node, x);
    } else {
      ListingSame(cfgs, base, w, c.node, x);
    }
  }

  lemma StepKeepsListing(cfgs: Cluster, base: seq<string>, w: World, c: Call, x: World)
    requires ValidCluster(cfgs) && Inv(cfgs, base, w) && Step(cfgs, w, c, x) && Nodes(cfgs, x)
    ensures Listing(cfgs, base, x)
  {
    hide AddStep, DelStep, Nodes, Listing, ValidCluster;
    match c
    case Refused =>
    case AddCall(_, _, _, _) => AddKeepsListing(cfgs, base, w, c, x);
    case DelCall(_, _) => DelKeepsListing(cfgs, base, w, c, x);
  }

  lemma StepKeepsInv(cfgs: Cluster, base: seq<string>, w: World, c: Call, x: World)
    requires ValidCluster(cfgs) && Inv(cfgs, base, w) && Step(cfgs, w, c, x)
    ensures Inv(cfgs, base, x)
  {
    hide ViewOf, Nodes, Listing, Step, ValidCluster;
    StepKeepsNodes(cfgs, w, c, x);
    StepKeepsListing(cfgs, base, w, c, x);
  }

  /** Every world of a run satisfies the invariant. */
  lemma {:induction false} RunKeepsInv(cfgs: Cluster, base: seq<string>, ws: seq<World>, cs: seq<Call>, i: nat)
    requires ValidCluster(cfgs) && Run(cfgs, ws, cs) && Inv(cfgs, base, ws[0]) && i <= |cs|
    ensures Inv(cfgs, base, ws[i])
  {
    hide Inv, Step, ValidCluster;
    if i > 0 {
      RunKeepsInv(cfgs, base, ws, cs, i - 1);
      StepKeepsInv(cfgs, base, ws[i - 1], cs[i - 1], ws[i]);
    }
  }

  // ---------------------------------------------------------------- what the calls alone say

  /** The pods a sequence of calls leaves on a node, oldest first. */
  function Live(cs: seq<Call>, n: Name): seq<Name> {
    if cs == [] then [] else
      var before := Live(cs[..|cs| - 1], n);
      After(before, cs[|cs| - 1], n)
  }

  function After(before: seq<Name>, c: Call, n: Name): seq<Name> {
    match c
    case AddCall(m, cid, _, _) => if m == n && cid !in before then before + [cid] else before
    case DelCall(m, cid) => if m == n then WithoutName(before, cid) else before
    case Refused => before
  }

  ghost function Order(st: NodeState): seq<Name> {
    if st.Absent? then [] else st.order
  }

  lemma AddOrder(cfg: Config, st: NodeState, cid: Name, netns: string, nic: Name, next: NodeState)
    requires cfg.Valid() && IsNetns(netns) && ValidState(cfg, st) && Added(cfg, st, cid, netns, nic, next)
    ensures Order(next) == if cid in Order(st) then Order(st) else Order(st) + [cid]
  {
    hide HostFree, NamespaceFree;
  }

  lemma {:induction false} DelOrder(cfg: Config, st: NodeState, cid: Name)
    requires cfg.Valid() && ValidState(cfg, st) && (Knows(st, cid) ==> ValidPod(cfg, st, cid))
    ensures Order(Deleted(st, cid)) == WithoutName(Order(st), cid)
  {
    if !Knows(st, cid) { WithoutNameAbsent(Order(st), cid); }
  }

  lemma NodeAt(cfgs: Cluster, w: World, n: Name)
    requires ValidCluster(cfgs) && Nodes(cfgs, w) && n in cfgs
    ensures n in w.nodes && cfgs[n].Valid() && StoreFor(w.kv, cfgs[n], w.nodes[n]) && Quiescent(cfgs[n], w.nodes[n])
    ensures ValidState(cfgs[n], w.nodes[n])
  {
    hide StoreFor, ValidState, Disjoint, TextsOf;
  }

  lemma StepOrder(cfgs: Cluster, w: World, c: Call, x: World, n: Name)
    requires ValidCluster(cfgs) && Nodes(cfgs, w) && Step(cfgs, w, c, x) && n in cfgs && n in w.nodes && n in x.nodes
    ensures Order(x.nodes[n]) == After(Order(w.nodes[n]), c, n)
  {
    hide ViewOf, ValidState, ValidCluster, Nodes, StoreFor, Quiescent, Added, ValidPod, Order, WithoutName, AddStep,
         DelStep, Deleted;
    match c
    case Refused =>
    case AddCall(m, cid, netns, nic) =>
      AddFacts(cfgs, w, c, x);
      NodeAt(cfgs, w, m);
      AddOrder(cfgs[m], w.nodes[m], cid, netns, nic, x.nodes[m]);
    case DelCall(m, cid) =>
      DelFacts(cfgs, w, c, x);
      NodeAt(cfgs, w, m);
      DelOrder(cfgs[m], w.nodes[m], cid);
  }

  /** A node's pods are those the calls leave, in the order of their ADDs. */
  lemma {:induction false} LiveIsOrder(cfgs: Cluster, base: seq<string>, ws: seq<World>, cs: seq<Call>, n: Name)
    requires ValidCluster(cfgs) && Run(cfgs, ws, cs) && Inv(cfgs, base, ws[0]) && n in cfgs
    requires ws[0].nodes[n].Absent?
    ensures n in ws[|cs|].nodes && Order(ws[|cs|].nodes[n]) == Live(cs, n)
  {
    hide Step, ValidCluster, StoreFor, Listing, After;
    RunKeepsInv(cfgs, base, ws, cs, |cs|);
    if cs != [] {
      var k := |cs| - 1;
      RunKeepsInv(cfgs, base, ws, cs, k);
      LiveIsOrder(cfgs, base, ws[..|cs|], cs[..k], n);
      NodeAt(cfgs, ws[k], n);
      StepOrder(cfgs, ws[k], cs[k], ws[|cs|], n);
    }
  }
}
