/** What etcd holds, with every key and every value spelled out: the records of a pod and of a node's
    root namespace, what an ADD writes and what a DEL erases. Nothing here is said in terms of the
    functions that build keys and values, so it fixes what those functions build. */
module Records {
  import opened Text
  import opened Wrappers
  import opened Keys
  import opened Etcd
  import opened Ipv4
  import opened Subnet
  import opened Ipam
  import opened NodeModel
  import opened NodeStore
  import opened Steps
  import opened ClusterObject

  type Store = map<string, string>

  ghost predicate Holds(kv: Store, key: string, text: string) {
    key in kv && kv[key] == text
  }

  function TextAt(kv: Store, key: string): string {
    if key in kv then kv[key] else ""
  }

  /** A stored list with one more entry at its end. */
  function More(text: string, x: string): string {
    if text == "" then x else text + "," + x
  }

  /** An address with its prefix. */
  function WithPrefix(addr: nat, prefix: nat): string
    requires addr < 0x1_0000_0000
  {
    RenderQuad(addr) + "/" + Dec(prefix)
  }

  /** The stores agree on every key that is not among `keys`. */
  ghost predicate SameBut(before: Store, after: Store, keys: set<string>) {
    forall s | s !in keys :: (s in before <==> s in after) && TextAt(before, s) == TextAt(after, s)
  }

  // ---------------------------------------------------------------- a pod's records

  /** The pod is recorded with one device, one address and one route, and listed. */
  ghost predicate PodRecorded(kv: Store, node: string, cid: string, netns: string, short: string, nic: string,
                              address: string, gateway: string) {
    var pod := "/ohno/node/" + node + "/pod/" + cid;
    && Holds(kv, pod + "/netns", netns)
    && Holds(kv, "/ohno/node/" + node + "/netns/" + short + "/pod", cid)
    && Holds(kv, pod + "/nic", nic)
    && Holds(kv, pod + "/nic/" + nic + "/addr", address)
    && Holds(kv, pod + "/nic/" + nic + "/route", "-" + gateway + "-" + nic)
    && cid in Tokens(TextAt(kv, "/ohno/node/" + node + "/pod"), ',')
    && address in Tokens(TextAt(kv, "/ohno/addresses/" + node), ',')
  }

  /** A pod was recorded: `pods` is what was listed before. */
  ghost predicate RecordWritten(before: Store, after: Store, node: string, cid: string, netns: string, short: string,
                                nic: string, pods: string) {
    var pod := "/ohno/node/" + node + "/pod/" + cid;
    && Holds(after, "/ohno/node/" + node + "/netns/" + short + "/pod", cid)
    && Holds(after, "/ohno/node/" + node + "/pod", More(pods, cid))
    && Holds(after, pod + "/netns", netns)
    && Holds(after, pod + "/nic", More(TextAt(before, pod + "/nic"), nic))
  }

  /** A device was given an address and the default route: `addresses` is what was listed before. */
  ghost predicate NetworkWritten(before: Store, after: Store, node: string, cid: string, nic: string,
                                 address: string, gateway: string, addresses: string) {
    var dev := "/ohno/node/" + node + "/pod/" + cid + "/nic/" + nic;
    && Holds(after, "/ohno/addresses/" + node, More(addresses, address))
    && Holds(after, dev + "/addr", More(TextAt(before, dev + "/addr"), address))
    && Holds(after, dev + "/route", More(TextAt(before, dev + "/route"), "-" + gateway + "-" + nic))
  }

  ghost function RecordKeys(node: string, cid: string, short: string): set<string> {
    var pod := "/ohno/node/" + node + "/pod/" + cid;
    {"/ohno/node/" + node + "/netns/" + short + "/pod", "/ohno/node/" + node + "/pod", pod + "/netns", pod + "/nic"}
  }

  ghost function NetworkKeys(node: string, cid: string, nic: string): set<string> {
    var dev := "/ohno/node/" + node + "/pod/" + cid + "/nic/" + nic;
    {"/ohno/addresses/" + node, dev + "/addr", dev + "/route"}
  }

  // ---------------------------------------------------------------- a node's records

  /** The subnet and the root namespace of a node with host `gw` as its gateway. */
  ghost predicate NodeRecorded(kv: Store, cfg: Config, gw: nat, vtep: bool) {
    var root := "/ohno/node/" + cfg.node + "/pod/" + "host";
    && cfg.cidr.addr + gw < 0x1_0000_0000
    && Holds(kv, "/ohno/subnets/" + cfg.node, WithPrefix(cfg.cidr.addr, cfg.cidr.prefix))
    && Holds(kv, "/ohno/node/" + cfg.node + "/netns/" + "host" + "/pod", "host")
    && Holds(kv, root + "/netns", "host")
    && Holds(kv, root + "/nic", cfg.bridge + "," + (if cfg.mode.Vxlan? then "ohnov," else "") + cfg.underlay)
    && Holds(kv, root + "/nic/" + cfg.bridge + "/addr", WithPrefix(cfg.cidr.addr + gw, cfg.cidr.prefix))
    && (cfg.mode.Vxlan? ==> Holds(kv, root + "/nic/" + "ohnov" + "/addr", RenderQuad(cfg.cidr.addr) + "/32"))
    && root + "/nic/" + cfg.underlay + "/addr" !in kv
    && if cfg.mode.Vxlan? && vtep
       then Holds(kv, "/ohno/node/" + cfg.node + "/vtep", RenderQuad(cfg.cidr.addr) + "-" + cfg.mac)
       else "/ohno/node/" + cfg.node + "/vtep" !in kv
  }

  // ---------------------------------------------------------------- entries and texts

  lemma EntryText(kv: Store, k: Key)
    requires Stored(kv)
    ensures k in ViewOf(kv)
    ensures TextAt(kv, KeyText(k)) == Join(ViewOf(kv)[k], ',') && Tokens(TextAt(kv, KeyText(k)), ',') == ViewOf(kv)[k]
    ensures TextAt(kv, KeyText(k)) == "" <==> KeyText(k) !in kv
    ensures TextAt(kv, KeyText(k)) == "" <==> ViewOf(kv)[k] == []
    ensures forall x: string :: ViewOf(kv)[k] == [x] ==> Holds(kv, KeyText(k), x)
  {
    hide KeyText;
    assert CleanAt(kv, KeyText(k));
    ReadClean(kv, KeyText(k));
    if KeyText(k) in kv { JoinSplitExact(kv[KeyText(k)], ','); }
  }

  lemma EntryGrew(before: Store, after: Store, k: Key, x: string)
    requires Stored(before) && Stored(after) && k in ViewOf(before) && k in ViewOf(after)
    requires ViewOf(after)[k] == ViewOf(before)[k] + [x]
    ensures Holds(after, KeyText(k), More(TextAt(before, KeyText(k)), x))
  {
    hide KeyText, Stored, ViewOf, Tokens;
    EntryText(before, k);
    EntryText(after, k);
    JoinAppend(ViewOf(before)[k], x, ',');
  }

  lemma EntrySame(before: Store, after: Store, k: Key)
    requires Stored(before) && Stored(after) && k in ViewOf(before) && k in ViewOf(after)
    requires ViewOf(after)[k] == ViewOf(before)[k]
    ensures KeyText(k) in before <==> KeyText(k) in after
    ensures TextAt(after, KeyText(k)) == TextAt(before, KeyText(k))
  {
    hide KeyText, Stored, ViewOf, Tokens;
    EntryText(before, k);
    EntryText(after, k);
  }

  lemma OtherTexts(before: Store, after: Store, keys: set<string>)
    requires Stored(before) && Stored(after) && Foreign(after) == Foreign(before)
    requires forall k: Key ::
      KeyText(k) in keys || (k in ViewOf(before) && k in ViewOf(after) && ViewOf(after)[k] == ViewOf(before)[k])
    ensures SameBut(before, after, keys)
  {
    hide KeyText, Stored, ViewOf;
    forall s | s !in keys
      ensures (s in before <==> s in after) && TextAt(before, s) == TextAt(after, s)
    {
      if IsKeyText(s) {
        var k: Key :| KeyText(k) == s;
        EntrySame(before, after, k);
      } else {
        assert s in before <==> s in Foreign(before);
        assert s in after <==> s in Foreign(after);
        assert s in before ==> Foreign(before)[s] == before[s];
        assert s in after ==> Foreign(after)[s] == after[s];
      }
    }
  }

  // ---------------------------------------------------------------- values

  lemma HostText(cfg: Config, host: nat)
    requires cfg.Faithful() && 1 <= host <= cfg.hosts
    ensures cfg.cidr.addr + host < 0x1_0000_0000
    ensures cfg.cidr.addr + host < cfg.cidr.addr + Pow2(32 - cfg.cidr.prefix) - 1
    ensures HostAddress(cfg.cidr, host) == cfg.cidr.addr + host
    ensures cfg.texts.host(host) == WithPrefix(cfg.cidr.addr + host, cfg.cidr.prefix)
  {
    hide RenderQuad, Dec, Pow2, HostAddress;
    HostInside(cfg.cidr, host);
    HostsExact(cfg.cidr, cfg.cidr.addr);
    HostReadsBack(cfg, host);
  }


  lemma RouteTextAt(cfg: Config, gw: nat, nic: string)
    requires cfg.Faithful() && 1 <= gw <= cfg.hosts
    ensures cfg.cidr.addr + gw < 0x1_0000_0000
    ensures cfg.texts.route(gw, nic) == "-" + RenderQuad(cfg.cidr.addr + gw) + "-" + nic
  {
    hide RenderQuad;
    HostText(cfg, gw);
  }

  // ---------------------------------------------------------------- the writes of an ADD

  lemma RecordTexts(before: Store, after: Store, cfg: Config, cid: Name, netns: string, nic: Name)
    requires Stored(before) && Stored(after) && IsNetns(netns) && Total(ViewOf(before))
    requires Foreign(after) == Foreign(before)
    requires ViewOf(after) == RecordView(ViewOf(before), cfg, cid, netns, nic)
    ensures RecordWritten(before, after, cfg.node, cid, netns, ShortNetns(netns), nic,
                          TextAt(before, "/ohno/node/" + cfg.node + "/pod"))
    ensures SameBut(before, after, RecordKeys(cfg.node, cid, ShortNetns(netns)))
  {
    hide Stored, ViewOf, Foreign, KeyText, RecordView, IsNetns, ShortNetns, TextAt, Tokens, More, Holds, SameBut;
    var n, s := cfg.node, ShortNetns(netns);
    forall k: Key
      ensures k in ViewOf(after) && ViewOf(after)[k] == RecordEntry(cfg, cid, netns, nic, k, ViewOf(before)[k])
    {
      RecordAt(ViewOf(before), cfg, cid, netns, nic, k);
    }
    KeySpelling(PodIn(n, s));
    KeySpelling(Pods(n));
    KeySpelling(NetnsOf(n, cid));
    KeySpelling(Nics(n, cid));
    EntryText(after, PodIn(n, s));
    EntryText(after, NetnsOf(n, cid));
    EntryGrew(before, after, Pods(n), cid);
    EntryGrew(before, after, Nics(n, cid), nic);
    OtherTexts(before, after, RecordKeys(n, cid, s));
  }

  lemma NetworkTexts(before: Store, after: Store, cfg: Config, cid: Name, nic: Name, host: nat, gw: nat)
    requires Stored(before) && Stored(after) && Total(ViewOf(before)) && Foreign(after) == Foreign(before)
    requires cfg.Faithful() && 1 <= host <= cfg.hosts && 1 <= gw <= cfg.hosts
    requires ViewOf(after) == NetworkView(ViewOf(before), cfg, cid, nic, host, gw)
    ensures cfg.cidr.addr + host < 0x1_0000_0000 && cfg.cidr.addr + gw < 0x1_0000_0000
    ensures NetworkWritten(before, after, cfg.node, cid, nic, WithPrefix(cfg.cidr.addr + host, cfg.cidr.prefix),
                           RenderQuad(cfg.cidr.addr + gw), TextAt(before, "/ohno/addresses/" + cfg.node))
    ensures SameBut(before, after, NetworkKeys(cfg.node, cid, nic))
  {
    hide Stored, ViewOf, Foreign, KeyText, NetworkView, TextAt, Tokens, More, Holds, SameBut, TextsOf, WithPrefix,
         RenderQuad;
    var n := cfg.node;
    HostText(cfg, host);
    RouteTextAt(cfg, gw, nic);
    forall k: Key
      ensures k in ViewOf(after) && ViewOf(after)[k] == NetworkEntry(cfg, cid, nic, host, gw, k, ViewOf(before)[k])
    {
      NetworkAt(ViewOf(before), cfg, cid, nic, host, gw, k);
    }
    KeySpelling(Addresses(n));
    KeySpelling(Addrs(n, cid, nic));
    KeySpelling(Routes(n, cid, nic));
    EntryGrew(before, after, Addresses(n), cfg.texts.host(host));
    EntryGrew(before, after, Addrs(n, cid, nic), cfg.texts.host(host));
    EntryGrew(before, after, Routes(n, cid, nic), cfg.texts.route(gw, nic));
    OtherTexts(before, after, NetworkKeys(n, cid, nic));
  }

  /** A device was recorded and given an address: `addresses` and `pods` are what was listed before. */
  ghost predicate DeviceWritten(before: Store, after: Store, node: string, cid: string, netns: string, short: string,
                                nic: string, r: CniResult, addresses: string, pods: string) {
    && RecordWritten(before, after, node, cid, netns, short, nic, pods)
    && NetworkWritten(before, after, node, cid, nic, r.address, r.gateway, addresses)
  }

  lemma PodEntries(before: Store, after: Store, cfg: Config, cid: Name, pod: Pod, gw: nat)
    requires Total(ViewOf(before)) && IsNetns(pod.netns) && cfg.Valid()
    requires ViewOf(after) == PodView(ViewOf(before), cfg, cid, pod, gw)
    ensures forall k: Key :: k in ViewOf(before) && k in ViewOf(after)
                             && ViewOf(after)[k] == PodEntry(cfg, cid, pod, gw, k, ViewOf(before)[k])
  {
    hide ViewOf, PodView, IsNetns, ShortNetns, TextsOf, PodEntry;
    forall k: Key
      ensures k in ViewOf(after) && ViewOf(after)[k] == PodEntry(cfg, cid, pod, gw, k, ViewOf(before)[k])
    {
      PodAt(ViewOf(before), cfg, cid, pod, gw, k);
    }
  }

  lemma PodRecordTexts(before: Store, after: Store, cfg: Config, cid: Name, pod: Pod, gw: nat)
    requires Stored(before) && Stored(after) && IsNetns(pod.netns) && cfg.Valid() && Total(ViewOf(before))
    requires ViewOf(after) == PodView(ViewOf(before), cfg, cid, pod, gw)
    ensures RecordWritten(before, after, cfg.node, cid, pod.netns, ShortNetns(pod.netns), pod.nic,
                          TextAt(before, "/ohno/node/" + cfg.node + "/pod"))
  {
    hide Stored, ViewOf, KeyText, PodView, IsNetns, ShortNetns, TextAt, Tokens, More, Holds, TextsOf;
    var n, s := cfg.node, ShortNetns(pod.netns);
    PodEntries(before, after, cfg, cid, pod, gw);
    KeySpelling(PodIn(n, s));
    KeySpelling(Pods(n));
    KeySpelling(NetnsOf(n, cid));
    KeySpelling(Nics(n, cid));
    EntryText(after, PodIn(n, s));
    EntryText(after, NetnsOf(n, cid));
    EntryGrew(before, after, Pods(n), cid);
    EntryGrew(before, after, Nics(n, cid), pod.nic);
  }

  lemma PodNetworkTexts(before: Store, after: Store, cfg: Config, cid: Name, pod: Pod, gw: nat)
    requires Stored(before) && Stored(after) && IsNetns(pod.netns) && Total(ViewOf(before))
    requires cfg.Faithful() && 1 <= pod.host <= cfg.hosts && 1 <= gw <= cfg.hosts
    requires ViewOf(after) == PodView(ViewOf(before), cfg, cid, pod, gw)
    ensures var r := ResultFor(cfg, pod.host, gw);
            NetworkWritten(before, after, cfg.node, cid, pod.nic, r.address, r.gateway,
                           TextAt(before, "/ohno/addresses/" + cfg.node))
  {
    hide Stored, ViewOf, KeyText, PodView, IsNetns, ShortNetns, TextAt, Tokens, More, Holds, TextsOf, RenderQuad,
         HostAddress;
    var n := cfg.node;
    HostText(cfg, gw);
    RouteTextAt(cfg, gw, pod.nic);
    PodEntries(before, after, cfg, cid, pod, gw);
    KeySpelling(Addresses(n));
    KeySpelling(Addrs(n, cid, pod.nic));
    KeySpelling(Routes(n, cid, pod.nic));
    EntryGrew(before, after, Addresses(n), cfg.texts.host(pod.host));
    EntryGrew(before, after, Addrs(n, cid, pod.nic), cfg.texts.host(pod.host));
    EntryGrew(before, after, Routes(n, cid, pod.nic), cfg.texts.route(gw, pod.nic));
  }

  lemma PodOtherTexts(before: Store, after: Store, cfg: Config, cid: Name, pod: Pod, gw: nat)
    requires Stored(before) && Stored(after) && Foreign(after) == Foreign(before) && IsNetns(pod.netns)
    requires cfg.Valid() && Total(ViewOf(before)) && ViewOf(after) == PodView(ViewOf(before), cfg, cid, pod, gw)
    ensures SameBut(before, after,
                    RecordKeys(cfg.node, cid, ShortNetns(pod.netns)) + NetworkKeys(cfg.node, cid, pod.nic))
  {
    hide Stored, ViewOf, Foreign, KeyText, PodView, IsNetns, ShortNetns, SameBut, TextsOf;
    var n, s := cfg.node, ShortNetns(pod.netns);
    PodEntries(before, after, cfg, cid, pod, gw);
    KeySpelling(PodIn(n, s));
    KeySpelling(Pods(n));
    KeySpelling(NetnsOf(n, cid));
    KeySpelling(Nics(n, cid));
    KeySpelling(Addresses(n));
    KeySpelling(Addrs(n, cid, pod.nic));
    KeySpelling(Routes(n, cid, pod.nic));
    OtherTexts(before, after, RecordKeys(n, cid, s) + NetworkKeys(n, cid, pod.nic));
  }

  /** What is reported, spelled out. */
  lemma ResultText(cfg: Config, host: nat, gw: nat)
    requires cfg.Faithful() && 1 <= host <= cfg.hosts && 1 <= gw <= cfg.hosts
    ensures cfg.cidr.addr + host < 0x1_0000_0000 && cfg.cidr.addr + gw < 0x1_0000_0000
    ensures ResultFor(cfg, host, gw) ==
            CniResult(WithPrefix(cfg.cidr.addr + host, cfg.cidr.prefix), RenderQuad(cfg.cidr.addr + gw))
  {
    hide RenderQuad, HostAddress, TextsOf;
    HostText(cfg, host);
    HostText(cfg, gw);
  }

  // ---------------------------------------------------------------- the records of a state

  /** The entries of a pod with one device, before they are spelled out. */
  ghost predicate PodHeld(v: View, cfg: Config, p: Name, pod: Pod, gw: nat)
    requires Total(v) && IsNetns(pod.netns)
  {
    var n := cfg.node;
    && v[PodIn(n, ShortNetns(pod.netns))] == [p]
    && p in v[Pods(n)]
    && v[NetnsOf(n, p)] == [pod.netns]
    && v[Nics(n, p)] == [pod.nic]
    && cfg.texts.host(pod.host) in v[Addresses(n)]
    && v[Addrs(n, p, pod.nic)] == [cfg.texts.host(pod.host)]
    && v[Routes(n, p, pod.nic)] == [cfg.texts.route(gw, pod.nic)]
  }

  lemma HeldTexts(cfg: Config, kv: Store, p: Name, pod: Pod, gw: nat)
    requires cfg.Faithful() && Stored(kv) && Total(ViewOf(kv)) && IsNetns(pod.netns)
    requires 1 <= pod.host <= cfg.hosts && 1 <= gw <= cfg.hosts && PodHeld(ViewOf(kv), cfg, p, pod, gw)
    ensures var r := ResultFor(cfg, pod.host, gw);
            PodRecorded(kv, cfg.node, p, pod.netns, ShortNetns(pod.netns), pod.nic, r.address, r.gateway)
  {
    hide Stored, ViewOf, KeyText, IsNetns, ShortNetns, TextAt, Tokens, Holds, TextsOf, RenderQuad, HostAddress;
    var n := cfg.node;
    RouteTextAt(cfg, gw, pod.nic);
    HostText(cfg, gw);
    KeySpelling(PodIn(n, ShortNetns(pod.netns)));
    KeySpelling(Pods(n));
    KeySpelling(NetnsOf(n, p));
    KeySpelling(Nics(n, p));
    KeySpelling(Addresses(n));
    KeySpelling(Addrs(n, p, pod.nic));
    KeySpelling(Routes(n, p, pod.nic));
    EntryText(kv, PodIn(n, ShortNetns(pod.netns)));
    EntryText(kv, Pods(n));
    EntryText(kv, NetnsOf(n, p));
    EntryText(kv, Nics(n, p));
    EntryText(kv, Addresses(n));
    EntryText(kv, Addrs(n, p, pod.nic));
    EntryText(kv, Routes(n, p, pod.nic));
  }

  lemma PodStateHeld(cfg: Config, v: View, st: NodeState, p: Name)
    requires cfg.Valid() && ValidState(cfg, st) && Knows(st, p) && Listed(st) && Total(v) && Matches(v, cfg, st)
    ensures ValidPod(cfg, st, p) && 1 <= st.gateway <= cfg.hosts && PodHeld(v, cfg, p, st.pods[p], st.gateway)
  {
    hide TextsOf, IsNetns, ShortNetns, Image;
    var n, pod := cfg.node, st.pods[p];
    assert ValidPod(cfg, st, p);
    PodAddressListed(v, cfg, st, p);
    PodEntriesImage(cfg, st, p);
    assert PodIn(n, ShortNetns(pod.netns)).Of(n) && Pods(n).Of(n) && NetnsOf(n, p).Of(n) && Nics(n, p).Of(n);
    assert Addrs(n, p, pod.nic).Of(n) && Routes(n, p, pod.nic).Of(n);
  }

  lemma PodEntriesImage(cfg: Config, st: NodeState, p: Name)
    requires cfg.Valid() && ValidState(cfg, st) && Knows(st, p) && Listed(st) && ValidPod(cfg, st, p)
    ensures var n, pod := cfg.node, st.pods[p];
            && Image(cfg, st, PodIn(n, ShortNetns(pod.netns))) == [p] && p in Image(cfg, st, Pods(n))
            && Image(cfg, st, NetnsOf(n, p)) == [pod.netns] && Image(cfg, st, Nics(n, p)) == [pod.nic]
            && Image(cfg, st, Addrs(n, p, pod.nic)) == [cfg.texts.host(pod.host)]
            && Image(cfg, st, Routes(n, p, pod.nic)) == [cfg.texts.route(st.gateway, pod.nic)]
  {
    hide TextsOf, IsNetns, ShortNetns;
  }

  /** What the store holds for a pod of a node's state. */
  lemma PodStateTexts(cfg: Config, kv: Store, st: NodeState, p: Name)
    requires cfg.Faithful() && StoreFor(kv, cfg, st) && Knows(st, p)
    ensures IsNetns(st.pods[p].netns) && 1 <= st.pods[p].host <= cfg.hosts && 1 <= st.gateway <= cfg.hosts
    ensures var r := ResultOf(cfg, st, p);
            PodRecorded(kv, cfg.node, p, st.pods[p].netns, ShortNetns(st.pods[p].netns), st.pods[p].nic, r.address,
                        r.gateway)
  {
    hide Stored, ViewOf, IsNetns, ShortNetns, TextsOf, ValidState, Matches, PodHeld, PodRecorded, ResultFor;
    ViewTotal(kv);
    PodStateHeld(cfg, ViewOf(kv), st, p);
    HeldTexts(cfg, kv, p, st.pods[p], st.gateway);
  }

  /** What the store holds for the root namespace of a node's state. */
  lemma NodeStateTexts(cfg: Config, kv: Store, st: NodeState)
    requires cfg.Faithful() && StoreFor(kv, cfg, st) && st.Present?
    ensures NodeRecorded(kv, cfg, st.gateway, st.vtep)
  {
    hide Stored, ViewOf, KeyText, Tokens, TextsOf, RenderQuad, HostAddress, ValidState, Image, Matches, WithPrefix,
         HostNics;
    NodeStateEntries(cfg, ViewOf(kv), st);
    HostText(cfg, st.gateway);
    NodeTexts(cfg);
    var n := cfg.node;
    KeySpelling(NodeSubnet(n));
    KeySpelling(PodIn(n, HOST));
    KeySpelling(NetnsOf(n, HOST));
    KeySpelling(Nics(n, HOST));
    KeySpelling(Addrs(n, HOST, cfg.bridge));
    KeySpelling(Addrs(n, HOST, NAME_VXLAN));
    KeySpelling(Addrs(n, HOST, cfg.underlay));
    KeySpelling(Vtep(n));
    EntryText(kv, NodeSubnet(n));
    EntryText(kv, PodIn(n, HOST));
    EntryText(kv, NetnsOf(n, HOST));
    EntryText(kv, Nics(n, HOST));
    assert TextAt(kv, KeyText(Nics(n, HOST))) != "";
    EntryText(kv, Addrs(n, HOST, cfg.bridge));
    EntryText(kv, Addrs(n, HOST, NAME_VXLAN));
    EntryText(kv, Addrs(n, HOST, cfg.underlay));
    EntryText(kv, Vtep(n));
  }

  lemma NodeTexts(cfg: Config)
    requires cfg.Faithful()
    ensures cfg.texts.subnet == WithPrefix(cfg.cidr.addr, cfg.cidr.prefix)
    ensures cfg.texts.vxlan == RenderQuad(cfg.cidr.addr) + "/32"
    ensures cfg.texts.vtep == RenderQuad(cfg.cidr.addr) + "-" + cfg.mac
    ensures Join(HostNics(cfg), ',') == cfg.bridge + "," + (if cfg.mode.Vxlan? then "ohnov," else "") + cfg.underlay
  {
    hide RenderQuad;
    assert Dec(32) == Dec(3) + Dec(2);
    JoinAppend([cfg.bridge], "ohnov", ',');
    JoinAppend([cfg.bridge, "ohnov"], cfg.underlay, ',');
    JoinAppend([cfg.bridge], cfg.underlay, ',');
    assert [cfg.bridge] + ["ohnov"] == [cfg.bridge, "ohnov"];
    assert [cfg.bridge, "ohnov"] + [cfg.underlay] == [cfg.bridge, "ohnov", cfg.underlay];
    assert [cfg.bridge] + [cfg.underlay] == [cfg.bridge, cfg.underlay];
    assert "ohnov" + "," == "ohnov,";
  }

  lemma NodeStateEntries(cfg: Config, v: View, st: NodeState)
    requires cfg.Valid() && ValidState(cfg, st) && st.Present? && Listed(st) && Matches(v, cfg, st)
    ensures 1 <= st.gateway <= cfg.hosts
    ensures var n := cfg.node;
            && NodeSubnet(n) in v && v[NodeSubnet(n)] == [cfg.texts.subnet]
            && PodIn(n, HOST) in v && v[PodIn(n, HOST)] == [HOST]
            && NetnsOf(n, HOST) in v && v[NetnsOf(n, HOST)] == [HOST]
            && Nics(n, HOST) in v && v[Nics(n, HOST)] == HostNics(cfg) != []
            && Addrs(n, HOST, cfg.bridge) in v && v[Addrs(n, HOST, cfg.bridge)] == [cfg.texts.host(st.gateway)]
            && Addrs(n, HOST, NAME_VXLAN) in v
            && (cfg.mode.Vxlan? ==> v[Addrs(n, HOST, NAME_VXLAN)] == [cfg.texts.vxlan])
            && Addrs(n, HOST, cfg.underlay) in v && v[Addrs(n, HOST, cfg.underlay)] == []
            && Vtep(n) in v && v[Vtep(n)] == if cfg.mode.Vxlan? && st.vtep then [cfg.texts.vtep] else []
  {
    hide TextsOf;
    var n := cfg.node;
    assert NodeSubnet(n).Of(n) && PodIn(n, HOST).Of(n) && NetnsOf(n, HOST).Of(n) && Nics(n, HOST).Of(n);
    assert Addrs(n, HOST, cfg.bridge).Of(n) && Addrs(n, HOST, NAME_VXLAN).Of(n) && Addrs(n, HOST, cfg.underlay).Of(n);
    assert Vtep(n).Of(n);
  }

  // ---------------------------------------------------------------- what an ADD did

  /** The address of a host and the gateway's are reported. */
  ghost predicate Reports(cfg: Config, host: nat, gw: nat, r: CniResult) {
    && cfg.cidr.addr + host < 0x1_0000_0000
    && r.address == RenderQuad(cfg.cidr.addr + host) + "/" + Dec(cfg.cidr.prefix)
    && cfg.cidr.addr + gw < 0x1_0000_0000 && r.gateway == RenderQuad(cfg.cidr.addr + gw)
  }

  /** A device that was not known: its records are added to what the node has, or to those of a new
      node, which lists its gateway and its root namespace. On a node that existed nothing else is
      changed. */
  ghost predicate DeviceAdded(before: Store, after: Store, cfg: Config, st: NodeState, cid: string, netns: string,
                              nic: string, r: CniResult)
    requires IsNetns(netns)
  {
    && DeviceWritten(before, after, cfg.node, cid, netns, ShortNetns(netns), nic, r,
                     if st.Absent? then r.gateway + "/" + Dec(cfg.cidr.prefix)
                     else TextAt(before, "/ohno/addresses/" + cfg.node),
                     if st.Absent? then "host" else TextAt(before, "/ohno/node/" + cfg.node + "/pod"))
    && (st.Present? ==>
        SameBut(before, after, RecordKeys(cfg.node, cid, ShortNetns(netns)) + NetworkKeys(cfg.node, cid, nic)))
  }

  /** The text was listed last, and not before. */
  ghost predicate ListedLast(kv: Store, key: string, text: string) {
    var xs := Tokens(TextAt(kv, key), ',');
    xs != [] && xs[|xs| - 1] == text && text !in xs[..|xs| - 1]
  }

  /** Every host address below is listed. */
  ghost predicate AllListedBelow(kv: Store, cfg: Config, host: nat) {
    forall a: nat | cfg.cidr.addr < a < cfg.cidr.addr + host ::
      a < 0x1_0000_0000 && WithPrefix(a, cfg.cidr.prefix) in Tokens(TextAt(kv, "/ohno/addresses/" + cfg.node), ',')
  }

  /** What a new node lists, and that it has nothing of a pod. */
  lemma NewNodeTexts(cfg: Config, before: Store, kv: Store, gw: nat, cid: Name, nic: Name)
    requires cfg.Faithful() && StoreFor(before, cfg, Absent) && StoreFor(kv, cfg, Created(gw))
    requires 1 <= gw <= cfg.hosts && cid != HOST
    ensures cfg.cidr.addr + gw < 0x1_0000_0000
    ensures TextAt(kv, "/ohno/addresses/" + cfg.node) == WithPrefix(cfg.cidr.addr + gw, cfg.cidr.prefix)
    ensures TextAt(kv, "/ohno/node/" + cfg.node + "/pod") == "host"
    ensures var pod := "/ohno/node/" + cfg.node + "/pod/" + cid;
            && TextAt(kv, pod + "/nic") == TextAt(before, pod + "/nic") == ""
            && TextAt(kv, pod + "/nic/" + nic + "/addr") == TextAt(before, pod + "/nic/" + nic + "/addr") == ""
            && TextAt(kv, pod + "/nic/" + nic + "/route") == TextAt(before, pod + "/nic/" + nic + "/route") == ""
  {
    hide Stored, ViewOf, KeyText, Tokens, TextsOf, RenderQuad, WithPrefix, Holds;
    var n := cfg.node;
    HostText(cfg, gw);
    assert Addresses(n).Of(n) && Pods(n).Of(n) && Nics(n, cid).Of(n) && Addrs(n, cid, nic).Of(n)
    && Routes(n, cid, nic).Of(n);
    KeySpelling(Addresses(n));
    KeySpelling(Pods(n));
    KeySpelling(Nics(n, cid));
    KeySpelling(Addrs(n, cid, nic));
    KeySpelling(Routes(n, cid, nic));
    EntryText(kv, Addresses(n));
    EntryText(kv, Pods(n));
    EntryText(kv, Nics(n, cid));
    EntryText(kv, Addrs(n, cid, nic));
    EntryText(kv, Routes(n, cid, nic));
    EntryText(before, Nics(n, cid));
    EntryText(before, Addrs(n, cid, nic));
    EntryText(before, Routes(n, cid, nic));
  }

  /** `base` is the store the device is added to: `before`, or that of the new node. */
  lemma DeviceTexts(cfg: Config, before: Store, base: Store, after: Store, st: NodeState, gw: nat, cid: Name,
                    netns: string, nic: Name, host: nat)
    requires cfg.Faithful() && StoreFor(before, cfg, st) && IsNetns(netns) && cid != HOST
    requires if st.Absent? then StoreFor(base, cfg, Created(gw)) else base == before && gw == st.gateway
    requires Stored(after) && Foreign(after) == Foreign(base) && Total(ViewOf(base))
    requires 1 <= host <= cfg.hosts && 1 <= gw <= cfg.hosts
    requires ViewOf(after) == PodView(ViewOf(base), cfg, cid, Pod(netns, nic, host), gw)
    ensures DeviceAdded(before, after, cfg, st, cid, netns, nic, ResultFor(cfg, host, gw))
    ensures Reports(cfg, host, gw, ResultFor(cfg, host, gw))
  {
    hide Stored, ViewOf, Foreign, PodView, IsNetns, ShortNetns, TextAt, Tokens, More, Holds, SameBut, TextsOf,
         RenderQuad, Dec, HostAddress, ValidState, Matches, ResultFor, Listed, KeyText, RecordKeys, NetworkKeys;
    PodRecordTexts(base, after, cfg, cid, Pod(netns, nic, host), gw);
    PodNetworkTexts(base, after, cfg, cid, Pod(netns, nic, host), gw);
    PodOtherTexts(base, after, cfg, cid, Pod(netns, nic, host), gw);
    ResultText(cfg, host, gw);
    if st.Absent? { NewNodeTexts(cfg, before, base, gw, cid, nic); }
  }

  lemma NothingHeld(cfg: Config, v: View, st: NodeState, cid: Name, nic: Name)
    requires st.Present? && Listed(st) && Total(v) && Matches(v, cfg, st) && !Knows(st, cid) && cid != HOST
    ensures v[Nics(cfg.node, cid)] == [] && v[Addrs(cfg.node, cid, nic)] == [] && v[Routes(cfg.node, cid, nic)] == []
  {
    hide TextsOf;
    var n := cfg.node;
    assert Nics(n, cid).Of(n) && Addrs(n, cid, nic).Of(n) && Routes(n, cid, nic).Of(n);
  }

  lemma FirstEntries(cfg: Config, cid: Name, pod: Pod, gw: nat, pods: seq<string>, addresses: seq<string>)
    requires IsNetns(pod.netns)
    ensures var n := cfg.node;
            && PodEntry(cfg, cid, pod, gw, Pods(n), pods) == pods + [cid]
            && PodEntry(cfg, cid, pod, gw, Addresses(n), addresses) == addresses + [cfg.texts.host(pod.host)]
            && PodEntry(cfg, cid, pod, gw, NetnsOf(n, cid), []) == [pod.netns]
            && PodEntry(cfg, cid, pod, gw, Nics(n, cid), []) == [pod.nic]
            && PodEntry(cfg, cid, pod, gw, Addrs(n, cid, pod.nic), []) == [cfg.texts.host(pod.host)]
            && PodEntry(cfg, cid, pod, gw, Routes(n, cid, pod.nic), []) == [cfg.texts.route(gw, pod.nic)]
    ensures forall xs: seq<string> :: PodEntry(cfg, cid, pod, gw, PodIn(cfg.node, ShortNetns(pod.netns)), xs) == [cid]
    ensures forall xs: seq<string> :: PodEntry(cfg, cid, pod, gw, NetnsOf(cfg.node, cid), xs) == [pod.netns]
  {
    hide IsNetns, ShortNetns;
  }

  lemma FirstDeviceHeld(cfg: Config, v: View, w: View, st: NodeState, cid: Name, pod: Pod)
    requires st.Present? && Listed(st) && Total(v) && Matches(v, cfg, st)
    requires !Knows(st, cid) && cid != HOST && IsNetns(pod.netns) && Total(w)
    requires forall k: Key :: k in v && w[k] == PodEntry(cfg, cid, pod, st.gateway, k, v[k])
    ensures PodHeld(w, cfg, cid, pod, st.gateway)
  {
    hide IsNetns, ShortNetns, PodEntry, Image, Matches, Listed, TextsOf;
    NothingHeld(cfg, v, st, cid, pod.nic);
    FirstEntries(cfg, cid, pod, st.gateway, v[Pods(cfg.node)], v[Addresses(cfg.node)]);
  }

  /** The records of a container's first device. */
  lemma FirstDeviceTexts(cfg: Config, base: Store, after: Store, st: NodeState, cid: Name, netns: string, nic: Name,
                         host: nat)
    requires cfg.Faithful() && StoreFor(base, cfg, st) && st.Present? && IsNetns(netns) && cid != HOST
    requires !Knows(st, cid) && Stored(after) && Total(ViewOf(base))
    requires 1 <= host <= cfg.hosts && 1 <= st.gateway <= cfg.hosts
    requires ViewOf(after) == PodView(ViewOf(base), cfg, cid, Pod(netns, nic, host), st.gateway)
    ensures var r := ResultFor(cfg, host, st.gateway);
            PodRecorded(after, cfg.node, cid, netns, ShortNetns(netns), nic, r.address, r.gateway)
  {
    hide Stored, ViewOf, IsNetns, ShortNetns, TextsOf, ValidState, Matches, PodHeld, PodRecorded, ResultFor, PodView,
         PodEntry;
    ViewTotal(after);
    PodEntries(base, after, cfg, cid, Pod(netns, nic, host), st.gateway);
    FirstDeviceHeld(cfg, ViewOf(base), ViewOf(after), st, cid, Pod(netns, nic, host));
    HeldTexts(cfg, after, cid, Pod(netns, nic, host), st.gateway);
  }

  lemma ListedIs(cfg: Config, st: NodeState, x: string)
    requires cfg.Valid() && ValidState(cfg, st) && st.Present? && Listed(st)
    requires x in Image(cfg, st, Addresses(cfg.node))
    ensures x == cfg.texts.host(st.gateway) || exists p <- st.pods :: x == cfg.texts.host(st.pods[p].host)
  {
    hide TextsOf, ValidState;
    var xs := HostTexts(cfg, st.order, st.pods);
    if x != cfg.texts.host(st.gateway) {
      var i :| 0 <= i < |xs| && xs[i] == x;
      assert st.order[i] in st.order;
      assert st.order[i] in st.pods && x == cfg.texts.host(st.pods[st.order[i]].host);
    }
  }

  lemma FreeIsUnlisted(cfg: Config, st: NodeState, host: nat)
    requires cfg.Faithful() && ValidState(cfg, st) && st.Present? && Listed(st) && HostFree(cfg, st, host)
    ensures cfg.texts.host(host) !in Image(cfg, st, Addresses(cfg.node))
  {
    hide TextsOf;
    var x := cfg.texts.host(host);
    FaithfulTextsDiffer(cfg);
    if x in Image(cfg, st, Addresses(cfg.node)) {
      ListedIs(cfg, st, x);
      forall p <- st.pods ensures cfg.texts.host(st.pods[p].host) != x { assert ValidPod(cfg, st, p); }
    }
  }

  lemma {:induction false} FirstFreeText(cfg: Config, xs: seq<string>, host: nat, i: nat)
    requires cfg.Faithful() && 1 <= i < host <= cfg.hosts && FirstFree(cfg.cidr, xs, 1) == Some(host)
    ensures cfg.cidr.addr + i < 0x1_0000_0000 && WithPrefix(cfg.cidr.addr + i, cfg.cidr.prefix) in xs
  {
    hide TextsOf, HostAddress, WithPrefix, GenerateIp, FirstFree;
    HostText(cfg, i);
    TextIs(cfg, i);
  }

  lemma AddressesGrew(cfg: Config, v: View, w: View, st: NodeState, cid: Name, pod: Pod)
    requires cfg.Faithful() && ValidState(cfg, st) && st.Present? && Listed(st) && Total(v) && Matches(v, cfg, st)
    requires IsNetns(pod.netns) && HostFree(cfg, st, pod.host) && w == PodView(v, cfg, cid, pod, st.gateway)
    ensures var k, xs := Addresses(cfg.node), Image(cfg, st, Addresses(cfg.node));
            k in w && w[k] == xs + [cfg.texts.host(pod.host)] && cfg.texts.host(pod.host) !in xs
  {
    hide IsNetns, ShortNetns, TextsOf, ValidState, PodView, Image, Listed;
    var k := Addresses(cfg.node);
    FreeIsUnlisted(cfg, st, pod.host);
    PodAt(v, cfg, cid, pod, st.gateway, k);
    assert k.Of(cfg.node);
  }

  lemma LastOf(kv: Store, k: Key, xs: seq<string>, x: string)
    requires Stored(kv) && k in ViewOf(kv) && ViewOf(kv)[k] == xs + [x] && x !in xs
    ensures ListedLast(kv, KeyText(k), x) && ListOf(kv, KeyText(k)) == xs + [x]
  {
    hide Stored, ViewOf, KeyText, TextAt, Tokens;
    EntryText(kv, k);
    assert (xs + [x])[..|xs|] == xs;
  }

  /** The address was listed by no one, and is the last of the list now. When it is the first free one,
      all addresses below it are listed. */
  lemma AllocatedTexts(cfg: Config, base: Store, after: Store, st: NodeState, cid: Name, pod: Pod)
    requires cfg.Faithful() && StoreFor(base, cfg, st) && st.Present? && IsNetns(pod.netns) && cid != HOST
    requires Stored(after) && Total(ViewOf(base)) && HostFree(cfg, st, pod.host)
    requires ViewOf(after) == PodView(ViewOf(base), cfg, cid, pod, st.gateway)
    ensures cfg.cidr.addr + pod.host < 0x1_0000_0000
    ensures ListedLast(after, "/ohno/addresses/" + cfg.node, WithPrefix(cfg.cidr.addr + pod.host, cfg.cidr.prefix))
    ensures FirstFree(cfg.cidr, Image(cfg, st, Addresses(cfg.node)), 1) == Some(pod.host) ==>
      AllListedBelow(after, cfg, pod.host)
  {
    hide Stored, ViewOf, KeyText, IsNetns, TextsOf, HostAddress, ValidState, PodView, WithPrefix, FirstFree, Image,
         Listed, Matches, ListedLast, HostFree, ZeroBits, Tokens, TextAt;
    var k, xs := Addresses(cfg.node), Image(cfg, st, Addresses(cfg.node));
    FreeHost(cfg, st, pod.host);
    HostText(cfg, pod.host);
    AddressesGrew(cfg, ViewOf(base), ViewOf(after), st, cid, pod);
    LastOf(after, k, xs, cfg.texts.host(pod.host));
    KeySpelling(k);
    if FirstFree(cfg.cidr, xs, 1) == Some(pod.host) {
      forall a: nat | cfg.cidr.addr < a < cfg.cidr.addr + pod.host
        ensures a < 0x1_0000_0000 && WithPrefix(a, cfg.cidr.prefix) in xs
      {
        FirstFreeText(cfg, xs, pod.host, a - cfg.cidr.addr);
      }
    }
  }

  lemma TextIs(cfg: Config, host: nat)
    requires cfg.Faithful() && host >= 1
    ensures cfg.texts.host(host) == GenerateIp(cfg.cidr, host)
  {
  }

  /** What a successful ADD reports, and that the store has it: the address of a host and the gateway's,
      and the pod's records. A device that was not known is added with an address that was unlisted. */
  ghost predicate AddRecorded(before: Store, after: Store, cfg: Config, st: NodeState, cid: Name, netns: string,
                              nic: Name, host: nat, gw: nat, r: CniResult)
    requires IsNetns(netns)
  {
    var s := if Knows(st, cid) then st.pods[cid].netns else netns;
    && IsNetns(s)
    && Reports(cfg, if KnownDevice(st, cid, nic) then st.pods[cid].host else host, gw, r)
    && (KnownDevice(st, cid, nic) || !Knows(st, cid) ==>
        PodRecorded(after, cfg.node, cid, s, ShortNetns(s), nic, r.address, r.gateway))
    && (!KnownDevice(st, cid, nic) ==>
        && DeviceAdded(before, after, cfg, st, cid, netns, nic, r)
        && ListedLast(after, "/ohno/addresses/" + cfg.node, r.address))
  }

  lemma FreeHost(cfg: Config, st: NodeState, host: nat)
    requires cfg.Valid() && st.Present? && HostFree(cfg, st, host)
    ensures 1 <= host <= cfg.hosts
  {
  }

  /** All of this about a device that was not known; `from` is the state it is added to. */
  lemma AddTexts(cfg: Config, before: Store, base: Store, after: Store, st: NodeState, from: NodeState, cid: Name,
                 netns: string, nic: Name, host: nat)
    requires cfg.Faithful() && StoreFor(before, cfg, st) && StoreFor(base, cfg, from) && IsNetns(netns) && cid != HOST
    requires from.Present? && if st.Absent? then from == Created(from.gateway) else base == before && from == st
    requires Kept(base, after, cfg.node) && HostFree(cfg, from, host)
    requires Total(ViewOf(base))
    requires ViewOf(after) == PodView(ViewOf(base), cfg, cid, Pod(netns, nic, host), from.gateway)
    requires Knows(st, cid) ==> IsNetns(st.pods[cid].netns) && st.pods[cid].nic != nic
    ensures AddRecorded(before, after, cfg, st, cid, netns, nic, host, from.gateway, ResultFor(cfg, host, from.gateway))
    ensures FirstFree(cfg.cidr, Image(cfg, from, Addresses(cfg.node)), 1) == Some(host) ==>
      AllListedBelow(after, cfg, host)
  {
    hide Stored, ViewOf, Foreign, KeyText, IsNetns, ShortNetns, TextsOf, HostAddress, ValidState, Matches, PodView,
         Image, PodRecorded, DeviceAdded, ListedLast, AllListedBelow, FirstFree, OthersKept, Listed, ResultFor,
         RenderQuad, Dec, WithPrefix, Reports, HostFree;
    ValidListed(cfg, from);
    FreeHost(cfg, from, host);
    DeviceTexts(cfg, before, base, after, st, from.gateway, cid, netns, nic, host);
    if !Knows(st, cid) { FirstDeviceTexts(cfg, base, after, from, cid, netns, nic, host); }
    AllocatedTexts(cfg, base, after, from, cid, Pod(netns, nic, host));
    ResultText(cfg, host, from.gateway);
  }

  /** The answer to a repeated ADD is what the store has of the pod. */
  lemma RepeatTexts(cfg: Config, kv: Store, st: NodeState, cid: Name, netns: string, host: nat)
    requires cfg.Faithful() && StoreFor(kv, cfg, st) && Knows(st, cid) && IsNetns(netns)
    ensures AddRecorded(kv, kv, cfg, st, cid, netns, st.pods[cid].nic, host, st.gateway, ResultOf(cfg, st, cid))
  {
    hide Stored, ViewOf, IsNetns, ShortNetns, TextsOf, HostAddress, ValidState, Matches, PodRecorded, ResultFor;
    PodStateTexts(cfg, kv, st, cid);
    ResultText(cfg, st.pods[cid].host, st.gateway);
  }

  /** Why an ADD is refused on a node that exists, and what it leaves: a namespace that is stored as
      another pod's leaves all as it was, and when no address is free the pod's records stay. */
  ghost predicate RefusalRecorded(before: Store, after: Store, cfg: Config, st: NodeState, cid: Name, netns: string,
                                  nic: Name, r: Result<CniResult, CniError>)
    requires IsNetns(netns)
  {
    var s := ShortNetns(netns);
    st.Present? ==>
      && (r == Err(NamespaceInUse) <==>
          TextAt(before, "/ohno/node/" + cfg.node + "/netns/" + s + "/pod") !in {"", cid})
      && (r == Err(NamespaceInUse) ==> after == before)
      && (r == Err(NoAddress) ==>
          && RecordWritten(before, after, cfg.node, cid, netns, s, nic,
                           TextAt(before, "/ohno/node/" + cfg.node + "/pod"))
          && SameBut(before, after, RecordKeys(cfg.node, cid, s)))
  }

  lemma RefusalNew(before: Store, after: Store, cfg: Config, st: NodeState, cid: Name, netns: string, nic: Name,
                   r: Result<CniResult, CniError>)
    requires IsNetns(netns) && st.Absent?
    ensures RefusalRecorded(before, after, cfg, st, cid, netns, nic, r)
  {
  }

  lemma RefusalTexts(before: Store, after: Store, cfg: Config, st: NodeState, cid: Name, netns: string, nic: Name,
                     gw: nat, r: Result<CniResult, CniError>)
    requires cfg.Faithful() && StoreFor(before, cfg, st) && IsNetns(netns) && cid != HOST && gw >= 1
    requires Total(ViewOf(before)) && Kept(before, after, cfg.node)
    requires DeviceRefused(ViewOf(before), ViewOf(after), cfg, st, cid, netns, nic, gw, r)
    ensures RefusalRecorded(before, after, cfg, st, cid, netns, nic, r)
  {
    hide Stored, ViewOf, Foreign, KeyText, IsNetns, ShortNetns, TextsOf, ValidState, Matches, RecordView, TextAt,
         Tokens, RecordWritten, SameBut, OthersKept, Listed, RecordKeys, NamespaceOfOther;
    if st.Present? {
      var k := PodIn(cfg.node, ShortNetns(netns));
      OwnerRead(cfg, st, ViewOf(before), netns, cid);
      EntryText(before, k);
      KeySpelling(k);
      if r == Err(NamespaceInUse) { StoreDetermined(before, after); }
      if r == Err(NoAddress) { RecordTexts(before, after, cfg, cid, netns, nic); }
    }
  }

  // ---------------------------------------------------------------- what a DEL erases

  function ListOf(kv: Store, key: string): seq<string> {
    Tokens(TextAt(kv, key), ',')
  }

  /** One entry left the list; the others are as they were. */
  ghost predicate Dropped(xs: seq<string>, ys: seq<string>, x: string) {
    exists i | 0 <= i < |xs| :: xs[i] == x && ys == xs[..i] + xs[i + 1..]
  }

  lemma {:induction false} OnceOut(xs: seq<string>, x: string)
    requires Distinct(xs) && x in xs
    ensures Dropped(xs, Without(xs, x), x)
  {
    hide Without;
    var i :| 0 <= i < |xs| && xs[i] == x;
    WithoutOne(xs[..i], x, xs[i + 1..]);
    assert xs == xs[..i] + ([x] + xs[i + 1..]);
  }

  lemma {:induction false} WithoutOne(xs: seq<string>, x: string, ys: seq<string>)
    requires x !in xs && x !in ys
    ensures Without(xs + ([x] + ys), x) == xs + ys
  {
    hide Without;
    WithoutExact(xs, [x] + ys, x, x);
    WithoutExact([x], ys, x, x);
    WithoutAbsent(xs, x);
    WithoutAbsent(ys, x);
  }

  /** A pod that is not the node's last was deleted. With the device it has, all its records are gone
      and its address is returned; with another device only its namespace and its place in the list
      go. Nothing else is changed, but in VXLAN mode the node's VTEP goes with a device. */
  ghost predicate PodErased(before: Store, after: Store, cfg: Config, cid: string, short: string, nic: string,
                            address: string, known: bool) {
    var pods := "/ohno/node/" + cfg.node + "/pod";
    var pod := "/ohno/node/" + cfg.node + "/pod/" + cid;
    && pod + "/netns" !in after && "/ohno/node/" + cfg.node + "/netns/" + short + "/pod" !in after
    && Dropped(ListOf(before, pods), ListOf(after, pods), cid)
    && (known ==>
        && pod + "/nic" !in after && pod + "/nic/" + nic + "/addr" !in after && pod + "/nic/" + nic + "/route" !in after
        && Dropped(ListOf(before, "/ohno/addresses/" + cfg.node), ListOf(after, "/ohno/addresses/" + cfg.node), address)
        && (cfg.mode.Vxlan? ==> "/ohno/node/" + cfg.node + "/vtep" !in after))
    && SameBut(before, after, PodKeys(cfg, cid, short, nic, known))
  }

  ghost function PodKeys(cfg: Config, cid: string, short: string, nic: string, known: bool): set<string> {
    if known then RecordKeys(cfg.node, cid, short) + NetworkKeys(cfg.node, cid, nic) +
                  (if cfg.mode.Vxlan? then {"/ohno/node/" + cfg.node + "/vtep"} else {})
    else {"/ohno/node/" + cfg.node + "/netns/" + short + "/pod", "/ohno/node/" + cfg.node + "/pod",
          "/ohno/node/" + cfg.node + "/pod/" + cid + "/netns"}
  }

  lemma HostsDiffer(cfg: Config, st: NodeState, i: nat, j: nat)
    requires cfg.Valid() && ValidState(cfg, st) && st.Present? && HostTextsDiffer(cfg)
    requires i < j < |st.order| && Listed(st)
    ensures cfg.texts.host(st.pods[st.order[i]].host) != cfg.texts.host(st.pods[st.order[j]].host)
  {
    var p, q := st.order[i], st.order[j];
    assert ValidPod(cfg, st, p) && ValidPod(cfg, st, q) && p != q;
  }

  lemma GatewayDiffers(cfg: Config, st: NodeState, j: nat)
    requires cfg.Valid() && ValidState(cfg, st) && st.Present? && HostTextsDiffer(cfg) && j < |st.order| && Listed(st)
    ensures cfg.texts.host(st.gateway) != cfg.texts.host(st.pods[st.order[j]].host)
  {
    assert ValidPod(cfg, st, st.order[j]);
  }

  lemma HostTextsDistinct(cfg: Config, st: NodeState)
    requires cfg.Valid() && ValidState(cfg, st) && st.Present? && Listed(st) && HostTextsDiffer(cfg)
    ensures Distinct([cfg.texts.host(st.gateway)] + HostTexts(cfg, st.order, st.pods))
  {
    hide ValidState, HostTextsDiffer;
    var all := [cfg.texts.host(st.gateway)] + HostTexts(cfg, st.order, st.pods);
    forall i, j | 0 <= i < j < |all|
      ensures all[i] != all[j]
    {
      if i == 0 { GatewayDiffers(cfg, st, j - 1); } else { HostsDiffer(cfg, st, i - 1, j - 1); }
    }
  }

  lemma ListsDistinct(cfg: Config, v: View, st: NodeState, cid: Name)
    requires cfg.Faithful() && Total(v) && ValidState(cfg, st) && Knows(st, cid) && Listed(st) && Matches(v, cfg, st)
    ensures Distinct(v[Addresses(cfg.node)]) && Distinct(v[Pods(cfg.node)])
    ensures cid in v[Pods(cfg.node)] && cfg.texts.host(st.pods[cid].host) in v[Addresses(cfg.node)]
    ensures v[Nics(cfg.node, cid)] == [st.pods[cid].nic]
  {
    hide TextsOf, IsNetns, ShortNetns;
    assert Addresses(cfg.node).Of(cfg.node) && Nics(cfg.node, cid).Of(cfg.node);
    HostNotPod(cfg, st);
    PodsAreNames(cfg, st, v);
    PodAddressListed(v, cfg, st, cid);
    FaithfulTextsDiffer(cfg);
    HostTextsDistinct(cfg, st);
  }

  /** The entries a DEL changes. */
  ghost predicate Touched(cfg: Config, cid: Name, s: Name, nic: Name, known: bool, k: Key) {
    var n := cfg.node;
    || k == PodIn(n, s) || k == Pods(n) || k == NetnsOf(n, cid)
    || (known && (k == Nics(n, cid) || k == Addresses(n) || k == Addrs(n, cid, nic) || k == Routes(n, cid, nic)
        || (k == Vtep(n) && cfg.mode.Vxlan?)))
  }

  lemma TouchedKeys(cfg: Config, cid: Name, s: Name, nic: Name, known: bool, k: Key)
    requires Touched(cfg, cid, s, nic, known, k)
    ensures KeyText(k) in PodKeys(cfg, cid, s, nic, known)
  {
    KeySpelling(k);
  }

  lemma {:induction false} GoneEntryIs(cfg: Config, cid: Name, pod: Pod, k: Key, xs: seq<string>)
    requires IsNetns(pod.netns)
    ensures var n, s, ys := cfg.node, ShortNetns(pod.netns), PodGoneEntry(cfg, cid, pod, k, xs);
            && (k == PodIn(n, s) || k == NetnsOf(n, cid) ==> ys == [])
            && (k == Addrs(n, cid, pod.nic) || k == Routes(n, cid, pod.nic) ==> ys == [])
            && (k == Vtep(n) && cfg.mode.Vxlan? ==> ys == [])
            && (k == Nics(n, cid) ==> ys == Without(xs, pod.nic))
            && (k == Pods(n) ==> ys == Without(xs, cid))
            && (k == Addresses(n) ==> ys == Without(xs, cfg.texts.host(pod.host)))
            && (Touched(cfg, cid, s, pod.nic, true, k) || ys == xs)
  {
    hide IsNetns, ShortNetns, TextsOf, Without;
  }

  lemma {:induction false} GoneEntries(cfg: Config, v: View, cid: Name, pod: Pod)
    requires cfg.Valid() && Total(v) && IsNetns(pod.netns) && v[Nics(cfg.node, cid)] == [pod.nic]
    ensures var n, s, w := cfg.node, ShortNetns(pod.netns), PodGoneView(v, cfg, cid, pod);
            && Total(w)
            && w[PodIn(n, s)] == [] && w[NetnsOf(n, cid)] == [] && w[Nics(n, cid)] == []
            && w[Addrs(n, cid, pod.nic)] == [] && w[Routes(n, cid, pod.nic)] == []
            && (cfg.mode.Vxlan? ==> w[Vtep(n)] == [])
            && w[Pods(n)] == Without(v[Pods(n)], cid)
            && w[Addresses(n)] == Without(v[Addresses(n)], cfg.texts.host(pod.host))
            && forall k: Key :: Touched(cfg, cid, s, pod.nic, true, k) || w[k] == v[k]
  {
    hide IsNetns, ShortNetns, PodGoneView, TextsOf, PodGoneEntry, Touched, Without;
    GoneTotal(v, cfg, cid, pod);
    WithoutSelf(pod.nic);
    forall k: Key
      ensures PodGoneView(v, cfg, cid, pod)[k] == PodGoneEntry(cfg, cid, pod, k, v[k])
    {
      PodGoneAt(v, cfg, cid, pod, k);
    }
    forall k: Key { GoneEntryIs(cfg, cid, pod, k, v[k]); }
  }

  lemma TouchedSame(cfg: Config, before: Store, after: Store, cid: Name, s: Name, nic: Name, known: bool)
    requires Stored(before) && Stored(after) && Foreign(after) == Foreign(before)
    requires Total(ViewOf(before)) && Total(ViewOf(after))
    requires forall k: Key :: Touched(cfg, cid, s, nic, known, k) || ViewOf(after)[k] == ViewOf(before)[k]
    ensures SameBut(before, after, PodKeys(cfg, cid, s, nic, known))
  {
    hide Stored, ViewOf, Foreign, KeyText, PodKeys, Touched, SameBut;
    forall k: Key | Touched(cfg, cid, s, nic, known, k)
      ensures KeyText(k) in PodKeys(cfg, cid, s, nic, known)
    {
      TouchedKeys(cfg, cid, s, nic, known, k);
    }
    OtherTexts(before, after, PodKeys(cfg, cid, s, nic, known));
  }

  /** The DEL of a pod's device, and of the pod. */
  lemma KnownGone(cfg: Config, before: Store, after: Store, st: NodeState, cid: Name)
    requires cfg.Faithful() && StoreFor(before, cfg, st) && Knows(st, cid) && Stored(after)
    requires Total(ViewOf(before)) && IsNetns(st.pods[cid].netns) && Foreign(after) == Foreign(before)
    requires ViewOf(after) == PodGoneView(ViewOf(before), cfg, cid, st.pods[cid])
    ensures var pod := st.pods[cid];
            PodErased(before, after, cfg, cid, ShortNetns(pod.netns), pod.nic, cfg.texts.host(pod.host), true)
  {
    hide Stored, ViewOf, Foreign, KeyText, IsNetns, ShortNetns, TextAt, Tokens, Holds, TextsOf, ValidState, Matches,
         PodGoneView, Distinct, Dropped, Without, SameBut, Listed, PodKeys, Touched;
    var n, pod, s := cfg.node, st.pods[cid], ShortNetns(st.pods[cid].netns);
    ListsDistinct(cfg, ViewOf(before), st, cid);
    GoneEntries(cfg, ViewOf(before), cid, pod);
    OnceOut(ViewOf(before)[Addresses(n)], cfg.texts.host(pod.host));
    OnceOut(ViewOf(before)[Pods(n)], cid);
    TouchedSame(cfg, before, after, cid, s, pod.nic, true);
    GoneTexts(before, after, cfg, cid, s, pod.nic, cfg.texts.host(pod.host));
  }

  lemma GoneTexts(before: Store, after: Store, cfg: Config, cid: Name, s: Name, nic: Name, x: string)
    requires Stored(before) && Stored(after) && Total(ViewOf(before)) && Total(ViewOf(after))
    requires var n, w := cfg.node, ViewOf(after);
             && w[PodIn(n, s)] == [] && w[NetnsOf(n, cid)] == [] && w[Nics(n, cid)] == []
             && w[Addrs(n, cid, nic)] == [] && w[Routes(n, cid, nic)] == [] && (cfg.mode.Vxlan? ==> w[Vtep(n)] == [])
             && Dropped(ViewOf(before)[Pods(n)], w[Pods(n)], cid)
             && Dropped(ViewOf(before)[Addresses(n)], w[Addresses(n)], x)
    requires SameBut(before, after, PodKeys(cfg, cid, s, nic, true))
    ensures PodErased(before, after, cfg, cid, s, nic, x, true)
  {
    hide Stored, ViewOf, KeyText, TextAt, Tokens, Dropped, SameBut, PodKeys;
    var n := cfg.node;
    KeySpelling(PodIn(n, s));
    KeySpelling(NetnsOf(n, cid));
    KeySpelling(Nics(n, cid));
    KeySpelling(Addrs(n, cid, nic));
    KeySpelling(Routes(n, cid, nic));
    KeySpelling(Vtep(n));
    KeySpelling(Pods(n));
    KeySpelling(Addresses(n));
    EntryText(after, PodIn(n, s));
    EntryText(after, NetnsOf(n, cid));
    EntryText(after, Nics(n, cid));
    EntryText(after, Addrs(n, cid, nic));
    EntryText(after, Routes(n, cid, nic));
    EntryText(after, Vtep(n));
    EntryText(after, Pods(n));
    EntryText(after, Addresses(n));
    EntryText(before, Pods(n));
    EntryText(before, Addresses(n));
  }

  /** The DEL of a pod under another device's name. */
  lemma OtherGone(cfg: Config, before: Store, after: Store, st: NodeState, cid: Name, nic: Name)
    requires cfg.Faithful() && StoreFor(before, cfg, st) && Knows(st, cid) && Stored(after)
    requires Total(ViewOf(before)) && IsNetns(st.pods[cid].netns) && Foreign(after) == Foreign(before)
    requires ViewOf(after) == DelPodView(ViewOf(before), cfg, cid, ShortNetns(st.pods[cid].netns))
    ensures var pod := st.pods[cid];
            PodErased(before, after, cfg, cid, ShortNetns(pod.netns), nic, cfg.texts.host(pod.host), false)
  {
    hide Stored, ViewOf, Foreign, KeyText, IsNetns, ShortNetns, TextAt, Tokens, Holds, TextsOf, ValidState, Matches,
         DelPodView, Distinct, Dropped, Without, SameBut, Listed, PodKeys;
    var n, s := cfg.node, ShortNetns(st.pods[cid].netns);
    ListsDistinct(cfg, ViewOf(before), st, cid);
    ViewTotal(after);
    forall k: Key
      ensures ViewOf(after)[k] == DelPodEntry(cfg, cid, s, k, ViewOf(before)[k])
    {
      DelPodAt(ViewOf(before), cfg, cid, s, k);
    }
    OnceOut(ViewOf(before)[Pods(n)], cid);
    TouchedSame(cfg, before, after, cid, s, nic, false);
    KeySpelling(PodIn(n, s));
    KeySpelling(NetnsOf(n, cid));
    KeySpelling(Pods(n));
    EntryText(after, PodIn(n, s));
    EntryText(after, NetnsOf(n, cid));
    EntryText(after, Pods(n));
    EntryText(before, Pods(n));
  }

  /** Nothing of the node is in the store. */
  ghost predicate NodeErased(kv: Store, node: Name) {
    && "/ohno/subnets/" + node !in kv && "/ohno/addresses/" + node !in kv
    && "/ohno/node/" + node + "/pod" !in kv && "/ohno/node/" + node + "/vtep" !in kv
    && (forall p: Name :: "/ohno/node/" + node + "/pod/" + p + "/netns" !in kv)
    && (forall s: Name :: "/ohno/node/" + node + "/netns/" + s + "/pod" !in kv)
    && (forall p: Name :: "/ohno/node/" + node + "/pod/" + p + "/nic" !in kv)
    && (forall p: Name, i: Name :: "/ohno/node/" + node + "/pod/" + p + "/nic/" + i + "/addr" !in kv)
    && (forall p: Name, i: Name :: "/ohno/node/" + node + "/pod/" + p + "/nic/" + i + "/route" !in kv)
  }

  lemma NoText(cfg: Config, kv: Store, k: Key)
    requires cfg.Valid() && StoreFor(kv, cfg, Absent) && k.Of(cfg.node)
    ensures KeyText(k) !in kv
  {
    hide Stored, ViewOf, KeyText, TextsOf, TextAt, Tokens;
    EntryText(kv, k);
  }

  lemma AbsentTexts(cfg: Config, kv: Store)
    requires cfg.Valid() && StoreFor(kv, cfg, Absent)
    ensures NodeErased(kv, cfg.node)
  {
    hide Stored, ViewOf, KeyText, TextsOf, TextAt, Tokens, StoreFor;
    forall k: Key | k.Of(cfg.node)
      ensures KeyText(k) !in kv
    {
      NoText(cfg, kv, k);
    }
    var n := cfg.node;
    KeySpelling(NodeSubnet(n));
    KeySpelling(Addresses(n));
    KeySpelling(Pods(n));
    KeySpelling(Vtep(n));
    assert NodeSubnet(n).Of(n) && Addresses(n).Of(n) && Pods(n).Of(n) && Vtep(n).Of(n);
    forall p: Name
      ensures "/ohno/node/" + n + "/pod/" + p + "/netns" !in kv && "/ohno/node/" + n + "/netns/" + p + "/pod" !in kv
      ensures "/ohno/node/" + n + "/pod/" + p + "/nic" !in kv
    {
      KeySpelling(NetnsOf(n, p));
      KeySpelling(PodIn(n, p));
      KeySpelling(Nics(n, p));
      assert NetnsOf(n, p).Of(n) && PodIn(n, p).Of(n) && Nics(n, p).Of(n);
    }
    forall p: Name, i: Name
      ensures "/ohno/node/" + n + "/pod/" + p + "/nic/" + i + "/addr" !in kv
      ensures "/ohno/node/" + n + "/pod/" + p + "/nic/" + i + "/route" !in kv
    {
      KeySpelling(Addrs(n, p, i));
      KeySpelling(Routes(n, p, i));
      assert Addrs(n, p, i).Of(n) && Routes(n, p, i).Of(n);
    }
  }

  /** What is left of a node whose last pod was deleted under another device's name: that pod's device
      with its address and route, and the address in the list. */
  ghost predicate DeviceLeft(kv: Store, cfg: Config, cid: string, short: string, nic: string, address: string, gw: nat)
  {
    var pod := "/ohno/node/" + cfg.node + "/pod/" + cid;
    && cfg.cidr.addr + gw < 0x1_0000_0000
    && Holds(kv, "/ohno/addresses/" + cfg.node, address)
    && Holds(kv, pod + "/nic", nic)
    && Holds(kv, pod + "/nic/" + nic + "/addr", address)
    && Holds(kv, pod + "/nic/" + nic + "/route", "-" + RenderQuad(cfg.cidr.addr + gw) + "-" + nic)
    && pod + "/netns" !in kv && "/ohno/node/" + cfg.node + "/netns/" + short + "/pod" !in kv
    && "/ohno/subnets/" + cfg.node !in kv && "/ohno/node/" + cfg.node + "/pod" !in kv
    && "/ohno/node/" + cfg.node + "/vtep" !in kv
    && "/ohno/node/" + cfg.node + "/pod/" + "host" + "/netns" !in kv
    && "/ohno/node/" + cfg.node + "/netns/" + "host" + "/pod" !in kv
    && "/ohno/node/" + cfg.node + "/pod/" + "host" + "/nic" !in kv
    && (forall i: Name :: "/ohno/node/" + cfg.node + "/pod/" + "host" + "/nic/" + i + "/addr" !in kv)
  }

  lemma LeftAddresses(cfg: Config, st: NodeState, cid: Name)
    requires cfg.Faithful() && ValidState(cfg, st) && Knows(st, cid) && st.order == [cid] && Listed(st)
    ensures var k := Addresses(cfg.node);
            NodeGoneEntry(cfg, st.gateway, k, Image(cfg, st, k)) == [cfg.texts.host(st.pods[cid].host)]
  {
    hide TextsOf, Without;
    PodTextApart(cfg, st, cid);
    var g, x := cfg.texts.host(st.gateway), cfg.texts.host(st.pods[cid].host);
    assert [g] + HostTexts(cfg, st.order, st.pods) == [g] + [x];
    WithoutHead(g, [x]);
    WithoutAbsent([x], g);
    WithoutAbsent([x], cfg.texts.vxlan);
  }

  lemma LeftEntry(cfg: Config, st: NodeState, cid: Name, k: Key)
    requires cfg.Faithful() && ValidState(cfg, st) && Knows(st, cid) && st.order == [cid] && Listed(st)
    requires ValidPod(cfg, st, cid) && k.Of(cfg.node) && !k.Addresses?
    ensures NodeGoneEntry(cfg, st.gateway, k,
        DelPodEntry(cfg, cid, ShortNetns(st.pods[cid].netns), k, Image(cfg, st, k)))
         == if (k.Nics? || k.Addrs? || k.Routes?) && k.pod == cid then Image(cfg, st, k) else []
  {
    hide TextsOf, IsNetns, ShortNetns;
    if k.Pods? {
      WithoutOther("host", [cid], cid);
      WithoutSelf(cid);
      WithoutSelf("host");
    } else if k.Nics? && k.pod == HOST {
      HostNicsGone(cfg);
    }
  }

  /** What the entries are then. */
  ghost function LeftOf(cfg: Config, st: NodeState, cid: Name, k: Key): seq<string>
    requires Knows(st, cid) && Listed(st)
  {
    if k.Addresses? then [cfg.texts.host(st.pods[cid].host)]
    else if (k.Nics? || k.Addrs? || k.Routes?) && k.pod == cid then Image(cfg, st, k)
    else []
  }

  lemma LeftAt(cfg: Config, v: View, st: NodeState, cid: Name, k: Key)
    requires cfg.Faithful() && Total(v) && ValidState(cfg, st) && Knows(st, cid) && st.order == [cid] && Listed(st)
    requires Matches(v, cfg, st) && IsNetns(st.pods[cid].netns) && ValidPod(cfg, st, cid)
    ensures var w := NodeGoneView(DelPodView(v, cfg, cid, ShortNetns(st.pods[cid].netns)), cfg, st.gateway);
            && k in w
            && (k.Of(cfg.node) ==> w[k] == LeftOf(cfg, st, cid, k))
            && (k == Subnets ==> w[k] == Without(v[k], cfg.texts.subnet))
  {
    hide TextsOf, IsNetns, ShortNetns, DelPodView, NodeGoneView, Image, ValidState, ValidPod, DelNicEntry, Without;
    var s := ShortNetns(st.pods[cid].netns);
    var u := DelPodView(v, cfg, cid, s);
    DelPodTotal(v, cfg, cid, s);
    NodeGoneTotal(u, cfg, st.gateway);
    DelPodAt(v, cfg, cid, s, k);
    NodeGoneAt(u, cfg, st.gateway, k);
    if k == Subnets {
      SubnetsGone(cfg, st.gateway, v[k]);
    } else if k.Addresses? {
      if k.Of(cfg.node) { LeftAddresses(cfg, st, cid); }
    } else if k.Of(cfg.node) {
      LeftEntry(cfg, st, cid, k);
    }
  }

  lemma {:induction false} SubnetsGone(cfg: Config, gw: nat, xs: seq<string>)
    ensures NodeGoneEntry(cfg, gw, Subnets, xs) == Without(xs, cfg.texts.subnet)
  {
  }

  lemma NodeGoneTotal(v: View, cfg: Config, gw: nat)
    requires Total(v)
    ensures Total(NodeGoneView(v, cfg, gw))
  {
  }

  lemma DelPodTotal(v: View, cfg: Config, pod: Name, short: Name)
    requires Total(v)
    ensures Total(DelPodView(v, cfg, pod, short))
  {
  }

  /** What a DEL of a pod the node has leaves. With the last one, under the name of its device, goes all
      the node has, and its subnet is returned. */
  ghost predicate PodGone(before: Store, after: Store, cfg: Config, st: NodeState, cid: Name, nic: Name)
    requires Knows(st, cid)
  {
    var pod := st.pods[cid];
    && IsNetns(pod.netns) && cfg.cidr.addr + pod.host < 0x1_0000_0000
    && if st.order != [cid] then
         PodErased(before, after, cfg, cid, ShortNetns(pod.netns), nic,
                   WithPrefix(cfg.cidr.addr + pod.host, cfg.cidr.prefix), pod.nic == nic)
       else
         && (if pod.nic == nic then NodeErased(after, cfg.node)
             else DeviceLeft(after, cfg, cid, ShortNetns(pod.netns), pod.nic,
                             WithPrefix(cfg.cidr.addr + pod.host, cfg.cidr.prefix), st.gateway))
         && cfg.cidr.Valid()
         && ListOf(after, "/ohno/subnets") ==
            Without(ListOf(before, "/ohno/subnets"), WithPrefix(cfg.cidr.addr, cfg.cidr.prefix))
  }

  lemma LastPod(cfg: Config, st: NodeState, cid: Name)
    requires cfg.Valid() && ValidState(cfg, st) && Knows(st, cid) && IsNetns(st.pods[cid].netns)
    ensures WithoutPod(st, cid).order == [] <==> st.order == [cid]
  {
    WithoutNameProps(st.order, cid);
    if WithoutPod(st, cid).order == [] {
      forall i | 0 <= i < |st.order| ensures st.order[i] == cid { assert st.order[i] in st.order; }
      assert cid in st.order;
      var k := |st.order| - 1;
      assert st.order[0] == cid && st.order[k] == cid;
    } else {
      assert WithoutPod(st, cid).order[0] in st.order;
    }
  }

  lemma SubnetReturned(cfg: Config, before: Store, after: Store)
    requires cfg.Faithful() && Stored(before) && Stored(after) && Subnets in ViewOf(before) && Subnets in ViewOf(after)
    requires ViewOf(after)[Subnets] == Without(ViewOf(before)[Subnets], cfg.texts.subnet)
    ensures ListOf(after, "/ohno/subnets") ==
            Without(ListOf(before, "/ohno/subnets"), WithPrefix(cfg.cidr.addr, cfg.cidr.prefix))
  {
    hide Stored, ViewOf, TextsOf, TextAt, Tokens, WithPrefix, Without, KeyText;
    KeySpelling(Subnets);
    EntryText(before, Subnets);
    EntryText(after, Subnets);
    NodeTexts(cfg);
  }

  /** The last pod's DEL under another device's name, spelled out. */
  lemma LeftTexts(before: Store, after: Store, cfg: Config, st: NodeState, cid: Name)
    requires cfg.Faithful() && StoreFor(before, cfg, st) && Knows(st, cid) && st.order == [cid]
    requires Stored(after) && Total(ViewOf(before)) && ValidPod(cfg, st, cid)
    requires var u := DelPodView(ViewOf(before), cfg, cid, ShortNetns(st.pods[cid].netns));
             Total(u) && ViewOf(after) == NodeGoneView(u, cfg, st.gateway)
    ensures cfg.cidr.addr + st.pods[cid].host < 0x1_0000_0000
    ensures DeviceLeft(after, cfg, cid, ShortNetns(st.pods[cid].netns), st.pods[cid].nic,
                       WithPrefix(cfg.cidr.addr + st.pods[cid].host, cfg.cidr.prefix), st.gateway)
    ensures Subnets in ViewOf(after) && ViewOf(after)[Subnets] == Without(ViewOf(before)[Subnets], cfg.texts.subnet)
  {
    hide Stored, ViewOf, IsNetns, ShortNetns, TextsOf, ValidState, Matches, DelPodView, NodeGoneView, LeftOf, Without,
         KeyText, Tokens, TextAt, ValidPod, WithPrefix, RenderQuad, DeviceLeft;
    KnownHasNetns(cfg, st, cid);
    forall k: Key
      ensures k in ViewOf(after) && (k.Of(cfg.node) ==> ViewOf(after)[k] == LeftOf(cfg, st, cid, k))
      ensures k == Subnets ==> ViewOf(after)[k] == Without(ViewOf(before)[k], cfg.texts.subnet)
    {
      LeftAt(cfg, ViewOf(before), st, cid, k);
    }
    PodInRange(cfg, st, cid);
    HostText(cfg, st.pods[cid].host);
    ValidListed(cfg, st);
    RouteTextAt(cfg, st.gateway, st.pods[cid].nic);
    LeftSpelled(after, cfg, st, cid, ShortNetns(st.pods[cid].netns));
  }

  lemma LeftImages(cfg: Config, st: NodeState, cid: Name)
    requires cfg.Valid() && ValidState(cfg, st) && Knows(st, cid) && Listed(st)
    ensures var n, nic := cfg.node, st.pods[cid].nic;
            && LeftOf(cfg, st, cid, Nics(n, cid)) == [nic]
            && LeftOf(cfg, st, cid, Addrs(n, cid, nic)) == [cfg.texts.host(st.pods[cid].host)]
            && LeftOf(cfg, st, cid, Routes(n, cid, nic)) == [cfg.texts.route(st.gateway, nic)]
            && LeftOf(cfg, st, cid, Addresses(n)) == [cfg.texts.host(st.pods[cid].host)] && cid != HOST
  {
    hide TextsOf;
    PodInRange(cfg, st, cid);
    assert ValidPod(cfg, st, cid);
  }

  lemma LeftSpelled(kv: Store, cfg: Config, st: NodeState, cid: Name, s: Name)
    requires cfg.Faithful() && Stored(kv) && ValidState(cfg, st) && Knows(st, cid) && Listed(st)
    requires 1 <= st.gateway <= cfg.hosts && 1 <= st.pods[cid].host <= cfg.hosts
    requires forall k: Key | k.Of(cfg.node) :: k in ViewOf(kv) && ViewOf(kv)[k] == LeftOf(cfg, st, cid, k)
    ensures cfg.cidr.addr + st.pods[cid].host < 0x1_0000_0000
    ensures DeviceLeft(kv, cfg, cid, s, st.pods[cid].nic,
                       WithPrefix(cfg.cidr.addr + st.pods[cid].host, cfg.cidr.prefix), st.gateway)
  {
    hide Stored, ViewOf, TextsOf, ValidState, LeftOf, KeyText, Tokens, TextAt, WithPrefix, RenderQuad;
    var n, nic := cfg.node, st.pods[cid].nic;
    HostText(cfg, st.pods[cid].host);
    RouteTextAt(cfg, st.gateway, nic);
    LeftImages(cfg, st, cid);
    LeftText(kv, cfg, st, cid, Addresses(n));
    LeftText(kv, cfg, st, cid, Nics(n, cid));
    LeftText(kv, cfg, st, cid, Addrs(n, cid, nic));
    LeftText(kv, cfg, st, cid, Routes(n, cid, nic));
    LeftText(kv, cfg, st, cid, NetnsOf(n, cid));
    LeftText(kv, cfg, st, cid, PodIn(n, s));
    LeftText(kv, cfg, st, cid, NodeSubnet(n));
    LeftText(kv, cfg, st, cid, Pods(n));
    LeftText(kv, cfg, st, cid, Vtep(n));
    LeftText(kv, cfg, st, cid, NetnsOf(n, HOST));
    LeftText(kv, cfg, st, cid, PodIn(n, HOST));
    LeftText(kv, cfg, st, cid, Nics(n, HOST));
    forall i: Name
      ensures "/ohno/node/" + n + "/pod/" + "host" + "/nic/" + i + "/addr" !in kv
    {
      LeftText(kv, cfg, st, cid, Addrs(n, HOST, i));
      KeySpelling(Addrs(n, HOST, i));
    }
    LeftKeys(n, cid, s, nic);
  }

  lemma LeftKeys(n: Name, cid: Name, s: Name, nic: Name)
    ensures KeyText(Addresses(n)) == "/ohno/addresses/" + n && KeyText(NodeSubnet(n)) == "/ohno/subnets/" + n
    ensures KeyText(Pods(n)) == "/ohno/node/" + n + "/pod" && KeyText(Vtep(n)) == "/ohno/node/" + n + "/vtep"
    ensures KeyText(Nics(n, cid)) == "/ohno/node/" + n + "/pod/" + cid + "/nic"
    ensures KeyText(Addrs(n, cid, nic)) == "/ohno/node/" + n + "/pod/" + cid + "/nic/" + nic + "/addr"
    ensures KeyText(Routes(n, cid, nic)) == "/ohno/node/" + n + "/pod/" + cid + "/nic/" + nic + "/route"
    ensures KeyText(NetnsOf(n, cid)) == "/ohno/node/" + n + "/pod/" + cid + "/netns"
    ensures KeyText(PodIn(n, s)) == "/ohno/node/" + n + "/netns/" + s + "/pod"
    ensures KeyText(NetnsOf(n, HOST)) == "/ohno/node/" + n + "/pod/" + "host" + "/netns"
    ensures KeyText(PodIn(n, HOST)) == "/ohno/node/" + n + "/netns/" + "host" + "/pod"
    ensures KeyText(Nics(n, HOST)) == "/ohno/node/" + n + "/pod/" + "host" + "/nic"
  {
    hide KeyText;
    KeySpelling(Addresses(n));
    KeySpelling(NodeSubnet(n));
    KeySpelling(Pods(n));
    KeySpelling(Vtep(n));
    KeySpelling(Nics(n, cid));
    KeySpelling(Addrs(n, cid, nic));
    KeySpelling(Routes(n, cid, nic));
    KeySpelling(NetnsOf(n, cid));
    KeySpelling(PodIn(n, s));
    KeySpelling(NetnsOf(n, HOST));
    KeySpelling(PodIn(n, HOST));
    KeySpelling(Nics(n, HOST));
  }

  lemma LeftText(kv: Store, cfg: Config, st: NodeState, cid: Name, k: Key)
    requires Stored(kv) && Knows(st, cid) && Listed(st) && k.Of(cfg.node)
    requires k in ViewOf(kv) && ViewOf(kv)[k] == LeftOf(cfg, st, cid, k)
    ensures k.Addresses? || ((k.Nics? || k.Addrs? || k.Routes?) && k.pod == cid) || KeyText(k) !in kv
    ensures forall x: string :: LeftOf(cfg, st, cid, k) == [x] ==> Holds(kv, KeyText(k), x)
  {
    hide Stored, ViewOf, KeyText, Tokens, TextAt, Image, Holds;
    EntryText(kv, k);
  }

  lemma DelTexts(before: Store, after: Store, cfg: Config, st: NodeState, cid: Name, nic: Name)
    requires cfg.Faithful() && StoreFor(before, cfg, st) && Knows(st, cid) && IsNetns(st.pods[cid].netns)
    requires Total(ViewOf(before)) && Kept(before, after, cfg.node)
    requires ViewOf(after) == GoneView(ViewOf(before), cfg, st, cid, nic)
    requires st.pods[cid].nic == nic ==> DelStep(before, after, cfg, st, cid)
    ensures PodGone(before, after, cfg, st, cid, nic)
  {
    hide Stored, ViewOf, Foreign, IsNetns, ShortNetns, TextsOf, ValidState, Matches, Listed, PodGoneView, DelPodView,
         NodeGoneView, PodErased, NodeErased, OthersKept, DeviceLeft, RenderQuad, Dec, WithoutPod, Without, TextAt,
         Tokens, WithPrefix, ValidPod;
    LastPod(cfg, st, cid);
    PodInRange(cfg, st, cid);
    HostText(cfg, st.pods[cid].host);
    if st.order != [cid] {
      if st.pods[cid].nic == nic {
        KnownGone(cfg, before, after, st, cid);
      } else {
        OtherGone(cfg, before, after, st, cid, nic);
      }
    } else {
      ViewTotal(after);
      if st.pods[cid].nic == nic {
        AbsentTexts(cfg, after);
      } else {
        KnownHasNetns(cfg, st, cid);
        DelPodTotal(ViewOf(before), cfg, cid, ShortNetns(st.pods[cid].netns));
        LeftTexts(before, after, cfg, st, cid);
      }
      SubnetReturned(cfg, before, after);
    }
  }

  lemma PodInRange(cfg: Config, st: NodeState, cid: Name)
    requires cfg.Valid() && ValidState(cfg, st) && Knows(st, cid)
    ensures 1 <= st.pods[cid].host <= cfg.hosts
  {
    assert ValidPod(cfg, st, cid);
  }
}
