/** One ADD on an empty store, letter by letter: the answer, and every key and value etcd has then. */
module Example {
  import opened Wrappers
  import opened Keys
  import opened Etcd
  import opened Ipv4
  import opened Subnet
  import opened Ipam
  import opened NodeModel
  import opened NodeStore
  import opened Steps
  import opened ClusterObject
  import opened Records
  import opened Cni
  import opened Calls

  const NETWORK: Cidr := Cidr(0x0AF4_0100, 24)

  /** Node n1 in VXLAN mode, with podCIDR 10.244.1.0/24. */
  ghost predicate IsExample(cfg: Config) {
    && cfg.Faithful() && cfg.node == "n1" && cfg.bridge == "ohnobr" && cfg.underlay == "ens3" && cfg.mode.Vxlan?
    && cfg.mac == "02:00:00:00:00:01" && cfg.cidr == NETWORK
  }

  const STORE: Store := map[
    "/ohno/subnets" := "10.244.1.0/24",
    "/ohno/subnets/n1" := "10.244.1.0/24",
    "/ohno/addresses/n1" := "10.244.1.1/24,10.244.1.2/24",
    "/ohno/node/n1/pod" := "host,c1",
    "/ohno/node/n1/netns/host/pod" := "host",
    "/ohno/node/n1/pod/host/netns" := "host",
    "/ohno/node/n1/pod/host/nic" := "ohnobr,ohnov,ens3",
    "/ohno/node/n1/pod/host/nic/ohnobr/addr" := "10.244.1.1/24",
    "/ohno/node/n1/pod/host/nic/ohnov/addr" := "10.244.1.0/32",
    "/ohno/node/n1/vtep" := "10.244.1.0-02:00:00:00:00:01",
    "/ohno/node/n1/netns/ns1/pod" := "c1",
    "/ohno/node/n1/pod/c1/netns" := "/var/run/netns/ns1",
    "/ohno/node/n1/pod/c1/nic" := "eth0",
    "/ohno/node/n1/pod/c1/nic/eth0/addr" := "10.244.1.2/24",
    "/ohno/node/n1/pod/c1/nic/eth0/route" := "-10.244.1.1-eth0"
  ]

  lemma Addresses244()
    ensures RenderQuad(0x0AF4_0100) == "10.244.1.0" && RenderQuad(0x0AF4_0101) == "10.244.1.1"
    ensures RenderQuad(0x0AF4_0102) == "10.244.1.2" && Dec(24) == "24"
  {
    hide RenderQuad, Dec;
    OneNumeral();
    assert Dec(0) == "0" by { DecSpelling(0); }
    QuadSpelling(0x0AF4_0100);
    QuadSpelling(0x0AF4_0101);
    QuadSpelling(0x0AF4_0102);
    assert RenderQuad(0x0AF4_0100) == "10" + "." + "244" + "." + "1" + "." + "0";
    assert RenderQuad(0x0AF4_0101) == "10" + "." + "244" + "." + "1" + "." + "1";
    assert RenderQuad(0x0AF4_0102) == "10" + "." + "244" + "." + "1" + "." + "2";
  }

  lemma RootLiterals(kv: Store, cfg: Config)
    requires IsExample(cfg) && NodeRecorded(kv, cfg, 1, true)
    ensures Holds(kv, "/ohno/subnets/n1", "10.244.1.0/24")
    ensures Holds(kv, "/ohno/node/n1/netns/host/pod", "host") && Holds(kv, "/ohno/node/n1/pod/host/netns", "host")
    ensures Holds(kv, "/ohno/node/n1/pod/host/nic", "ohnobr,ohnov,ens3")
    ensures Holds(kv, "/ohno/node/n1/pod/host/nic/ohnobr/addr", "10.244.1.1/24")
    ensures Holds(kv, "/ohno/node/n1/pod/host/nic/ohnov/addr", "10.244.1.0/32")
    ensures Holds(kv, "/ohno/node/n1/vtep", "10.244.1.0-02:00:00:00:00:01")
  {
    hide RenderQuad, Dec, Holds, TextsOf;
    Addresses244();
    RootKeys();
    RootValues();
  }

  lemma RootValues()
    ensures "10.244.1.0" + "/" + "24" == "10.244.1.0/24" && "10.244.1.1" + "/" + "24" == "10.244.1.1/24"
    ensures "10.244.1.0" + "/32" == "10.244.1.0/32"
    ensures "10.244.1.0" + "-" + "02:00:00:00:00:01" == "10.244.1.0-02:00:00:00:00:01"
    ensures "ohnobr" + "," + "ohnov," + "ens3" == "ohnobr,ohnov,ens3"
  {
  }

  lemma RootKeys()
    ensures "/ohno/subnets/" + "n1" == "/ohno/subnets/n1"
    ensures "/ohno/node/" + "n1" + "/netns/" + "host" + "/pod" == "/ohno/node/n1/netns/host/pod"
    ensures var root := "/ohno/node/" + "n1" + "/pod/" + "host";
            && root + "/netns" == "/ohno/node/n1/pod/host/netns" && root + "/nic" == "/ohno/node/n1/pod/host/nic"
            && root + "/nic/" + "ohnobr" + "/addr" == "/ohno/node/n1/pod/host/nic/ohnobr/addr"
            && root + "/nic/" + "ohnov" + "/addr" == "/ohno/node/n1/pod/host/nic/ohnov/addr"
    ensures "/ohno/node/" + "n1" + "/vtep" == "/ohno/node/n1/vtep"
  {
  }

  lemma PodKeyTexts()
    ensures "/ohno/addresses/" + "n1" == "/ohno/addresses/n1"
    ensures "/ohno/node/" + "n1" + "/pod" == "/ohno/node/n1/pod"
    ensures "/ohno/node/" + "n1" + "/netns/" + "ns1" + "/pod" == "/ohno/node/n1/netns/ns1/pod"
    ensures var pod := "/ohno/node/" + "n1" + "/pod/" + "c1";
            pod + "/netns" == "/ohno/node/n1/pod/c1/netns" && pod + "/nic" == "/ohno/node/n1/pod/c1/nic"
  {
  }

  lemma DeviceKeyTexts()
    ensures var pod := "/ohno/node/" + "n1" + "/pod/" + "c1";
            && pod + "/nic/" + "eth0" + "/addr" == "/ohno/node/n1/pod/c1/nic/eth0/addr"
            && pod + "/nic/" + "eth0" + "/route" == "/ohno/node/n1/pod/c1/nic/eth0/route"
  {
  }

  lemma PodLiterals(kv: Store, r: CniResult)
    requires DeviceWritten(map[], kv, "n1", "c1", "/var/run/netns/ns1", "ns1", "eth0", r, "10.244.1.1/24", "host")
    requires r == CniResult("10.244.1.2/24", "10.244.1.1")
    ensures Holds(kv, "/ohno/addresses/n1", "10.244.1.1/24,10.244.1.2/24") && Holds(kv, "/ohno/node/n1/pod", "host,c1")
    ensures Holds(kv, "/ohno/node/n1/netns/ns1/pod", "c1")
    ensures Holds(kv, "/ohno/node/n1/pod/c1/netns", "/var/run/netns/ns1")
    ensures Holds(kv, "/ohno/node/n1/pod/c1/nic", "eth0")
    ensures Holds(kv, "/ohno/node/n1/pod/c1/nic/eth0/addr", "10.244.1.2/24")
    ensures Holds(kv, "/ohno/node/n1/pod/c1/nic/eth0/route", "-10.244.1.1-eth0")
  {
    hide Holds, More;
    PodKeyTexts();
    DeviceKeyTexts();
    PodValues();
    assert More(TextAt(map[], "/ohno/node/n1/pod/c1/nic"), "eth0") == "eth0";
  }

  lemma PodValues()
    ensures More("host", "c1") == "host,c1"
    ensures More("10.244.1.1/24", "10.244.1.2/24") == "10.244.1.1/24,10.244.1.2/24"
    ensures "-" + "10.244.1.1" + "-" + "eth0" == "-10.244.1.1-eth0"
    ensures forall x :: More("", x) == x
  {
  }

  // ---------------------------------------------------------------- nothing else

  const NETNS: string := "/var/run/netns/ns1"

  ghost predicate IsNext(next: NodeState) {
    next == Present(1, true, ["c1"], map["c1" := Pod(NETNS, "eth0", 2)], map["ns1" := "c1"])
  }

  lemma NamedEntries(cfg: Config, next: NodeState, k: Key)
    requires IsExample(cfg) && IsNext(next) && k.Of("n1") && Image(cfg, next, k) != []
    ensures || k in {NodeSubnet("n1"), Addresses("n1"), Pods("n1"), Vtep("n1"), PodIn("n1", "host"), PodIn("n1", "ns1")}
            || k in {NetnsOf("n1", "host"), Nics("n1", "host"), Addrs("n1", "host", "ohnobr"),
                Addrs("n1", "host", "ohnov")}
            || k in {NetnsOf("n1", "c1"), Nics("n1", "c1"), Addrs("n1", "c1", "eth0"), Routes("n1", "c1", "eth0")}
  {
    hide TextsOf;
  }

  lemma NamedKeys(cfg: Config, next: NodeState, k: Key)
    requires IsExample(cfg) && IsNext(next) && k.Of("n1") && Image(cfg, next, k) != []
    ensures KeyText(k) in STORE
  {
    hide TextsOf, Image, KeyText;
    NamedEntries(cfg, next, k);
    KeySpelling(k);
    RootKeys();
    PodKeyTexts();
    DeviceKeyTexts();
  }

  lemma EmptyStore()
    ensures Stored(map[]) && Foreign(map[]) == map[]
    ensures forall k: Key :: k in ViewOf(map[]) && ViewOf(map[])[k] == []
  {
    hide KeyText;
  }

  lemma KeyNamed(cfg: Config, kv: Store, next: NodeState, k: Key)
    requires IsExample(cfg) && IsNext(next) && StoreFor(kv, cfg, next) && OthersKept(ViewOf(map[]), ViewOf(kv), "n1")
    requires KeyText(k) in kv
    ensures KeyText(k) in STORE
  {
    hide ViewOf, Stored, Image, KeyText, TextsOf, TextAt, ValidState;
    EntryText(kv, k);
    EmptyStore();
    if k == Subnets { KeySpelling(k); } else if k.Of("n1") { NamedKeys(cfg, next, k); }
  }

  lemma NothingElse(cfg: Config, kv: Store, next: NodeState)
    requires IsExample(cfg) && IsNext(next) && StoreFor(kv, cfg, next) && Kept(map[], kv, "n1")
    ensures kv.Keys <= STORE.Keys
  {
    hide KeyText, StoreFor, OthersKept, IsExample;
    forall s <- kv
      ensures s in STORE
    {
      EmptyStore();
      assert s !in Foreign(kv);
      var k: Key :| KeyText(k) == s;
      KeyNamed(cfg, kv, next, k);
    }
  }

  // ---------------------------------------------------------------- the call

  lemma ExampleCases(cfg: Config)
    requires IsExample(cfg)
    ensures IsNetns(NETNS) && ShortNetns(NETNS) == "ns1" && Untouched(map[], cfg)
    ensures FirstFree(cfg.cidr, Used(cfg, Absent), 1) == Some(2)
  {
    hide GenerateIp, RenderCidr, IsNetns, ShortNetns, KeyText;
    assert NETNS == PATH_NAMESPACE + "/" + "ns1";
    BothSpellings("ns1");
    EmptyStore();
    HostsExact(cfg.cidr, cfg.cidr.addr);
    assert Pow2(8) == 256;
    TriedHost(cfg.cidr, Used(cfg, Absent), 1);
    TriedHost(cfg.cidr, Used(cfg, Absent), 2);
    if GenerateIp(cfg.cidr, 1) == GenerateIp(cfg.cidr, 2) { GenerateIpInjective(cfg.cidr, 1, 2); }
  }

  lemma StepIs(cfg: Config, kv: Store, next: NodeState)
    requires IsExample(cfg) && IsNetns(NETNS) && ShortNetns(NETNS) == "ns1"
    requires AddStep(map[], kv, cfg, Absent, "c1", NETNS, "eth0", next)
    requires FirstFree(cfg.cidr, Used(cfg, Absent), 1) == Some(2)
    ensures next.Present? && next.vtep && IsNext(next) && StoreFor(kv, cfg, next) && Kept(map[], kv, "n1")
    ensures Subnets in ViewOf(kv) && ViewOf(kv)[Subnets] == [cfg.texts.subnet]
  {
    hide IsNetns, ShortNetns, TextsOf, ViewOf, Stored, Foreign, OthersKept, Matches, ValidState, FirstFree, Used;
    ViewTotal(kv);
    EmptyStore();
    assert [] + ["c1"] == ["c1"] && [] + [cfg.texts.subnet] == [cfg.texts.subnet];
  }

  lemma SubnetListed(cfg: Config, kv: Store)
    requires IsExample(cfg) && Stored(kv) && Subnets in ViewOf(kv) && ViewOf(kv)[Subnets] == [cfg.texts.subnet]
    ensures Holds(kv, "/ohno/subnets", "10.244.1.0/24")
  {
    hide ViewOf, Stored, KeyText, TextsOf, RenderQuad, Dec, TextAt;
    KeySpelling(Subnets);
    EntryText(kv, Subnets);
    NodeTexts(cfg);
    Addresses244();
    RootValues();
  }

  lemma AnswerIs(cfg: Config, r: CniResult)
    requires IsExample(cfg) && Reports(cfg, 2, 1, r)
    ensures r == CniResult("10.244.1.2/24", "10.244.1.1")
    ensures r.gateway + "/" + Dec(24) == "10.244.1.1/24"
  {
    hide RenderQuad, Dec, TextsOf;
    Addresses244();
    RootValues();
    assert "10.244.1.2" + "/" + "24" == "10.244.1.2/24";
  }

  lemma StoreIs(cfg: Config, kv: Store, next: NodeState, r: CniResult)
    requires IsExample(cfg) && IsNext(next) && StoreFor(kv, cfg, next) && Kept(map[], kv, "n1")
    requires NodeRecorded(kv, cfg, 1, true) && IsNetns(NETNS) && ShortNetns(NETNS) == "ns1"
    requires Reports(cfg, 2, 1, r) && DeviceAdded(map[], kv, cfg, Absent, "c1", NETNS, "eth0", r)
    requires Subnets in ViewOf(kv) && ViewOf(kv)[Subnets] == [cfg.texts.subnet]
    ensures kv == STORE
  {
    hide ViewOf, Stored, OthersKept, TextsOf, Matches, ValidState, NodeRecorded, DeviceWritten, IsNext, Foreign,
         Reports;
    NothingElse(cfg, kv, next);
    RootLiterals(kv, cfg);
    AnswerIs(cfg, r);
    PodLiterals(kv, r);
    SubnetListed(cfg, kv);
    assert kv.Keys == STORE.Keys;
  }

  /** The first ADD of a cluster. */
  method FirstAdd(client: Client, cfg: Config) returns (r: Result<CniResult, CniError>)
    requires client.reliableReads && client.reliableWrites && IsExample(cfg) && client.kv == map[]
    modifies client`kv, client`lost
    ensures r == Ok(CniResult("10.244.1.2/24", "10.244.1.1"))
    ensures client.kv == STORE
  {
    hide ViewOf, Stored, Foreign, Kept, TextsOf, ValidState, FirstFree, HostFree, IsNetns, ShortNetns, NodeRecorded,
         DeviceAdded, Reports, PodRecorded, ListedLast, AllListedBelow, DeviceGiven, NodeImage, Distinct, ResultFor,
         Matches, Listed, STORE, AddStep, StoreFor, Used, IsNext, Added;
    ExampleCases(cfg);
    NothingYet(client.kv, cfg);
    var cni := new Cni(cfg, client);
    ghost var next, host, gw;
    r, next, host, gw := cni.Add("c1", NETNS, "eth0", Absent);
    StepIs(cfg, client.kv, next);
    AnswerIs(cfg, r.value);
    StoreIs(cfg, client.kv, next, r.value);
  }
}
