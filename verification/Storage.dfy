/** The persisted lifecycle records of src/cni/storage.cc: which namespace a pod has and which pod a
    namespace has, the pods of a node, and the devices, addresses and routes of a pod. */
module Storage {
  import opened Text
  import opened Wrappers
  import opened Keys
  import opened Etcd

  const SEPARATOR: char := '-'

  datatype Route = Route(dest: string, via: string, dev: string)

  // ---------------------------------------------------------------- values with fields

  /** `getRouteValue`. */
  function RouteValue(r: Route): string {
    r.dest + [SEPARATOR] + r.via + [SEPARATOR] + r.dev
  }

  /** `getVtepValue`. */
  function VtepValue(addr: string, mac: string): string {
    addr + [SEPARATOR] + mac
  }

  lemma ThreeFields(a: string, b: string, c: string)
    ensures Join([a, b, c], SEPARATOR) == a + [SEPARATOR] + b + [SEPARATOR] + c
  {
    assert [a, b, c][1..] == [b, c] && [b, c][1..] == [c];
    assert Join([b, c], SEPARATOR) == b + [SEPARATOR] + c;
  }

  /** A stored route splits into its three fields exactly when none of them contains the separator;
      the default destination, which is empty, is no exception. */
  lemma RouteValueExact(r: Route)
    requires r.via != "" && r.dev != ""
    ensures Tokens(RouteValue(r), SEPARATOR) == [r.dest, r.via, r.dev] <==>
            SEPARATOR !in r.dest && SEPARATOR !in r.via && SEPARATOR !in r.dev
  {
    var xs := [r.dest, r.via, r.dev];
    ThreeFields(r.dest, r.via, r.dev);
    SplitJoinExact(xs, SEPARATOR);
    assert xs[0] == r.dest && xs[1] == r.via && xs[2] == r.dev;
  }

  lemma VtepValueExact(addr: string, mac: string)
    requires addr != "" && mac != ""
    ensures Tokens(VtepValue(addr, mac), SEPARATOR) == [addr, mac] <==> SEPARATOR !in addr && SEPARATOR !in mac
  {
    var xs := [addr, mac];
    assert xs[1..] == [mac];
    SplitJoinExact(xs, SEPARATOR);
    assert xs[0] == addr && xs[1] == mac;
  }

  /** What `getAllRoutes` makes of one stored value; None is its size assertion failing. */
  function DecodeRoute(value: string): Option<Route> {
    var f := Tokens(value, SEPARATOR);
    if |f| == 3 then Some(Route(f[0], f[1], f[2])) else None
  }

  /** What `getVtep` makes of the stored value; None is its size assertion failing. */
  function DecodeVtep(value: string): Option<(string, string)> {
    var f := Tokens(value, SEPARATOR);
    if f == [] then Some(("", "")) else if |f| == 2 then Some((f[0], f[1])) else None
  }

  /** A list of tokens has no empty one to remove. */
  lemma {:induction false} WithoutNothing(xs: seq<string>)
    ensures Good(xs) ==> Without(xs, "") == xs
  {
    if xs != [] {
      WithoutNothing(xs[1..]);
      assert xs[0] in xs && [xs[0]] + xs[1..] == xs;
      if Good(xs) { assert Good(xs[1..]); }
    }
  }

  // ---------------------------------------------------------------- operations

  class Storage {
    const client: Client

    constructor (client: Client)
      ensures this.client == client
    {
      this.client := client;
    }

    method AddNetns(node: Name, pod: Name, netns: string) returns (ok: bool)
      requires Stored(client.kv) && Token(netns)
      modifies client`kv, client`lost
      ensures ok ==> Changed(old(client.kv), client.kv, NetnsOf(node, pod), [netns])
      ensures !ok ==> client.kv == old(client.kv)
      ensures client.reliableWrites ==> ok
    {
      PutEntry(client.kv, NetnsOf(node, pod), netns);
      ok := client.Put(KeyText(NetnsOf(node, pod)), netns);
    }

    method DelNetns(node: Name, pod: Name) returns (ok: bool)
      requires Stored(client.kv)
      modifies client`kv, client`lost
      ensures ok ==> Changed(old(client.kv), client.kv, NetnsOf(node, pod), [])
      ensures !ok ==> client.kv == old(client.kv)
      ensures client.reliableWrites ==> ok
    {
      DelEntry(client.kv, NetnsOf(node, pod));
      ok := client.Del(KeyText(NetnsOf(node, pod)));
    }

    /** The empty text when nothing is stored. */
    method GetNetns(node: Name, pod: Name) returns (netns: string)
      requires Stored(client.kv) && client.reliableReads
      ensures netns == Join(ViewOf(client.kv)[NetnsOf(node, pod)], COMMA)
    {
      ReadEntry(client.kv, NetnsOf(node, pod));
      var _, value := client.Get(KeyText(NetnsOf(node, pod)));
      netns := value;
    }

    /** Two writes: the reverse index, then the pod list. `read` tells whether the list was read; when
        it was not, the pod replaces it. */
    method AddPod(node: Name, netns: string, pod: Name) returns (ok: bool, ghost read: bool)
      requires Stored(client.kv) && IsNetns(netns)
      modifies client`kv, client`lost
      ensures ok ==>
        && Stored(client.kv) && Foreign(client.kv) == old(Foreign(client.kv))
        && ViewOf(client.kv) == old(ViewOf(client.kv))[PodIn(node, ShortNetns(netns)) := [pod]]
             [Pods(node) := Seen(old(ViewOf(client.kv))[Pods(node)], read) + [pod]]
      ensures !ok ==>
        client.kv == old(client.kv) || Changed(old(client.kv), client.kv, PodIn(node, ShortNetns(netns)), [pod])
      ensures client.reliableReads ==> read
      ensures client.reliableWrites ==> ok
    {
      hide Stored, Foreign, ListAt, KeyText, IsNetns, ShortNetns;
      read := true;
      PutEntry(client.kv, PodIn(node, ShortNetns(netns)), pod);
      ok := client.Put(KeyText(PodIn(node, ShortNetns(netns))), pod);
      if !ok { return; }
      ghost var mid := client.kv;
      ok, read := client.Append(KeyText(Pods(node)), pod);
      AppendEntry(mid, Pods(node), pod, read);
    }

    /** The pod removed from the list is the one the reverse index names; when it names none, nothing
        changes. A failed read or write of the list leaves the pod listed. */
    method DelPod(node: Name, netns: string) returns (ok: bool)
      requires Stored(client.kv) && IsNetns(netns)
      modifies client`kv, client`lost
      ensures ok ==>
        && Stored(client.kv) && Foreign(client.kv) == old(Foreign(client.kv))
        && var named := old(ViewOf(client.kv))[PodIn(node, ShortNetns(netns))];
           ViewOf(client.kv) == old(ViewOf(client.kv))[PodIn(node, ShortNetns(netns)) := []]
             [Pods(node) := Without(old(ViewOf(client.kv))[Pods(node)], Join(named, COMMA))]
      ensures ok && old(ViewOf(client.kv))[PodIn(node, ShortNetns(netns))] == [] ==>
        ViewOf(client.kv) == old(ViewOf(client.kv))
      ensures !ok ==>
        client.kv == old(client.kv) || Changed(old(client.kv), client.kv, PodIn(node, ShortNetns(netns)), [])
      ensures client.reliableReads && client.reliableWrites ==> ok
    {
      hide Stored, Foreign, ListAt, KeyText, IsNetns, ShortNetns, Read;
      ghost var k := PodIn(node, ShortNetns(netns));
      ReadEntry(client.kv, k);
      ReadEntry(client.kv, Pods(node));
      var name;
      ok, name := client.Get(KeyText(PodIn(node, ShortNetns(netns))));
      if !ok { return; }
      DelEntry(client.kv, k);
      ok := client.Del(KeyText(PodIn(node, ShortNetns(netns))));
      if !ok { return; }
      RemoveEntry(client.kv, Pods(node), name);
      ok := client.DelValue(KeyText(Pods(node)), name);
      WithoutNothing(old(ViewOf(client.kv))[Pods(node)]);
    }

    /** The empty text when the namespace has no pod, or when the read fails. */
    method GetPod(node: Name, netns: string) returns (pod: string)
      requires Stored(client.kv) && IsNetns(netns)
      ensures pod == Join(ViewOf(client.kv)[PodIn(node, ShortNetns(netns))], COMMA)
        || (!client.reliableReads && pod == "")
      ensures client.reliableReads ==> (pod == "" <==> ViewOf(client.kv)[PodIn(node, ShortNetns(netns))] == [])
    {
      ReadEntry(client.kv, PodIn(node, ShortNetns(netns)));
      var _, value := client.Get(KeyText(PodIn(node, ShortNetns(netns))));
      pod := value;
    }

    method GetAllPods(node: Name) returns (pods: seq<string>)
      requires client.reliableReads
      ensures pods == ViewOf(client.kv)[Pods(node)]
    {
      var _, xs := client.List(KeyText(Pods(node)));
      pods := xs;
    }

    method AddNic(node: Name, pod: Name, nic: Name) returns (ok: bool)
      requires Stored(client.kv) && client.reliableReads
      modifies client`kv, client`lost
      ensures ok ==>
        Changed(old(client.kv), client.kv, Nics(node, pod), old(ViewOf(client.kv))[Nics(node, pod)] + [nic])
      ensures !ok ==> client.kv == old(client.kv)
      ensures client.reliableWrites ==> ok
    {
      AppendEntry(client.kv, Nics(node, pod), nic, true);
      ghost var read;
      ok, read := client.Append(KeyText(Nics(node, pod)), nic);
    }

    method DelNic(node: Name, pod: Name, nic: Name) returns (ok: bool)
      requires Stored(client.kv)
      modifies client`kv, client`lost
      ensures ok ==>
        Changed(old(client.kv), client.kv, Nics(node, pod), Without(old(ViewOf(client.kv))[Nics(node, pod)], nic))
      ensures !ok ==> client.kv == old(client.kv)
      ensures client.reliableReads && client.reliableWrites ==> ok
    {
      RemoveEntry(client.kv, Nics(node, pod), nic);
      ok := client.DelValue(KeyText(Nics(node, pod)), nic);
    }

    method GetAllNic(node: Name, pod: Name) returns (nics: seq<string>)
      requires client.reliableReads
      ensures nics == ViewOf(client.kv)[Nics(node, pod)]
    {
      var _, xs := client.List(KeyText(Nics(node, pod)));
      nics := xs;
    }

    method AddAddr(node: Name, pod: Name, nic: Name, addr: string) returns (ok: bool)
      requires Stored(client.kv) && client.reliableReads && Token(addr)
      modifies client`kv, client`lost
      ensures ok ==>
        Changed(old(client.kv), client.kv, Addrs(node, pod, nic),
                old(ViewOf(client.kv))[Addrs(node, pod, nic)] + [addr])
      ensures !ok ==> client.kv == old(client.kv)
      ensures client.reliableWrites ==> ok
    {
      AppendEntry(client.kv, Addrs(node, pod, nic), addr, true);
      ghost var read;
      ok, read := client.Append(KeyText(Addrs(node, pod, nic)), addr);
    }

    method DelAddr(node: Name, pod: Name, nic: Name) returns (ok: bool)
      requires Stored(client.kv)
      modifies client`kv, client`lost
      ensures ok ==> Changed(old(client.kv), client.kv, Addrs(node, pod, nic), [])
      ensures !ok ==> client.kv == old(client.kv)
      ensures client.reliableWrites ==> ok
    {
      DelEntry(client.kv, Addrs(node, pod, nic));
      ok := client.Del(KeyText(Addrs(node, pod, nic)));
    }

    method GetAllAddrs(node: Name, pod: Name, nic: Name) returns (addrs: seq<string>)
      requires client.reliableReads
      ensures addrs == ViewOf(client.kv)[Addrs(node, pod, nic)]
    {
      var _, xs := client.List(KeyText(Addrs(node, pod, nic)));
      addrs := xs;
    }

    method AddRoute(node: Name, pod: Name, nic: Name, route: Route) returns (ok: bool)
      requires Stored(client.kv) && client.reliableReads && Token(RouteValue(route))
      modifies client`kv, client`lost
      ensures ok ==> Changed(old(client.kv), client.kv, Routes(node, pod, nic),
                             old(ViewOf(client.kv))[Routes(node, pod, nic)] + [RouteValue(route)])
      ensures !ok ==> client.kv == old(client.kv)
      ensures client.reliableWrites ==> ok
    {
      AppendEntry(client.kv, Routes(node, pod, nic), RouteValue(route), true);
      ghost var read;
      ok, read := client.Append(KeyText(Routes(node, pod, nic)), RouteValue(route));
    }

    method DelRoute(node: Name, pod: Name, nic: Name) returns (ok: bool)
      requires Stored(client.kv)
      modifies client`kv, client`lost
      ensures ok ==> Changed(old(client.kv), client.kv, Routes(node, pod, nic), [])
      ensures !ok ==> client.kv == old(client.kv)
      ensures client.reliableWrites ==> ok
    {
      DelEntry(client.kv, Routes(node, pod, nic));
      ok := client.Del(KeyText(Routes(node, pod, nic)));
    }

    /** Every stored value must have three fields, as the code asserts. No routes when the read fails. */
    method GetAllRoutes(node: Name, pod: Name, nic: Name) returns (routes: seq<Route>)
      requires forall v <- ViewOf(client.kv)[Routes(node, pod, nic)] :: DecodeRoute(v).Some?
      ensures |routes| == |ViewOf(client.kv)[Routes(node, pod, nic)]| || (!client.reliableReads && routes == [])
      ensures forall i | 0 <= i < |routes| ::
        && DecodeRoute(ViewOf(client.kv)[Routes(node, pod, nic)][i]) == Some(routes[i])
        && Tokens(ViewOf(client.kv)[Routes(node, pod, nic)][i], '-') == [routes[i].dest, routes[i].via, routes[i].dev]
    {
      hide Tokens, KeyText, Read;
      var _, values := client.List(KeyText(Routes(node, pod, nic)));
      assert values == ViewOf(client.kv)[Routes(node, pod, nic)] || (!client.reliableReads && values == []);
      routes := [];
      for i := 0 to |values|
        invariant |routes| == i
        invariant forall j | 0 <= j < i ::
          && DecodeRoute(values[j]) == Some(routes[j])
          && Tokens(values[j], '-') == [routes[j].dest, routes[j].via, routes[j].dev]
      {
        assert values[i] in values;
        var fields := Split(values[i], SEPARATOR);
        var route := Route(fields[0], fields[1], fields[2]);
        assert DecodeRoute(values[i]) == Some(route);
        routes := routes + [route];
      }
    }

    method AddVtep(node: Name, addr: string, mac: string) returns (ok: bool)
      requires Stored(client.kv) && Token(VtepValue(addr, mac))
      modifies client`kv, client`lost
      ensures ok ==> Changed(old(client.kv), client.kv, Vtep(node), [VtepValue(addr, mac)])
      ensures !ok ==> client.kv == old(client.kv)
      ensures client.reliableWrites ==> ok
    {
      PutEntry(client.kv, Vtep(node), VtepValue(addr, mac));
      ok := client.Put(KeyText(Vtep(node)), VtepValue(addr, mac));
    }

    method DelVtep(node: Name) returns (ok: bool)
      requires Stored(client.kv)
      modifies client`kv, client`lost
      ensures ok ==> Changed(old(client.kv), client.kv, Vtep(node), [])
      ensures !ok ==> client.kv == old(client.kv)
      ensures client.reliableWrites ==> ok
    {
      DelEntry(client.kv, Vtep(node));
      ok := client.Del(KeyText(Vtep(node)));
    }

    /** Empty fields when nothing is stored or the read fails. */
    method GetVtep(node: Name) returns (addr: string, mac: string)
      requires DecodeVtep(Read(client.kv, KeyText(Vtep(node)))).Some?
      ensures DecodeVtep(Read(client.kv, KeyText(Vtep(node)))) == Some((addr, mac))
        || (!client.reliableReads && (addr, mac) == ("", ""))
      ensures (addr, mac) == ("", "") || Tokens(Read(client.kv, KeyText(Vtep(node))), '-') == [addr, mac]
    {
      addr, mac := "", "";
      var ok, value := client.Get(KeyText(Vtep(node)));
      if ok {
        var fields := Split(value, SEPARATOR);
        if fields != [] {
          addr, mac := fields[0], fields[1];
        }
      }
    }
  }
}
