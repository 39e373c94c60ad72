/** The address manager of src/ipam/ipam.cc: a node's subnet, and first-fit allocation of host
    addresses recorded under `/ohno/addresses/<node>`. */
module Ipam {
  import opened Text
  import opened Wrappers
  import opened Keys
  import opened Etcd
  import opened Ipv4
  import opened Subnet

  // ---------------------------------------------------------------- first fit

  /** The number of host indices the allocator tries. */
  function HostCount(c: Cidr): nat
    requires c.Valid() && 1 <= c.prefix < MAX_PREFIX
  {
    Pow2Grows(0, MAX_PREFIX - c.prefix);
    Size(c.prefix) - 2
  }

  /** The least host index from `from` on whose text is not in use. */
  function FirstFree(c: Cidr, used: seq<string>, from: nat): (r: Option<nat>)
    requires c.Valid() && 1 <= c.prefix < MAX_PREFIX && from >= 1
    ensures r.Some? ==> from <= r.value <= HostCount(c) && GenerateIp(c, r.value) !in used
    ensures forall i | from <= i < (if r.Some? then r.value else HostCount(c) + 1) :: GenerateIp(c, i) in used
    decreases HostCount(c) - from
  {
    if from > HostCount(c) then None
    else if GenerateIp(c, from) !in used then Some(from)
    else FirstFree(c, used, from + 1)
  }

  /** The indices are all the hosts: an address lies strictly between the network's and the broadcast
      address exactly when some index reaches it. */
  lemma HostsExact(c: Cidr, a: nat)
    requires NodeNetwork(c)
    ensures HostCount(c) + 2 == Pow2(32 - c.prefix)
    ensures c.addr < a < c.addr + Pow2(32 - c.prefix) - 1 <==>
            exists i: nat :: 1 <= i <= HostCount(c) && HostAddress(c, i) == a
  {
    hide Pow2, ZeroBits, HostAddress;
    if c.addr < a < c.addr + Pow2(32 - c.prefix) - 1 {
      HostInside(c, a - c.addr);
      assert HostAddress(c, a - c.addr) == a;
    }
    forall i: nat | 1 <= i <= HostCount(c) ensures HostAddress(c, i) == c.addr + i {
      HostInside(c, i);
    }
  }

  ghost function Texts(c: Cidr, n: nat): set<string>
    requires c.Valid()
  {
    if n == 0 then {} else Texts(c, n - 1) + {GenerateIp(c, n)}
  }

  lemma {:induction false} LaterTextIsNew(c: Cidr, n: nat, m: nat)
    requires NodeNetwork(c) && n < m <= HostCount(c)
    ensures GenerateIp(c, m) !in Texts(c, n)
  {
    hide GenerateIp;
    if n > 0 {
      LaterTextIsNew(c, n - 1, m);
      if GenerateIp(c, n) == GenerateIp(c, m) { GenerateIpInjective(c, n, m); }
    }
  }

  lemma {:induction false} TextsSize(c: Cidr, n: nat, used: seq<string>)
    requires NodeNetwork(c) && n <= HostCount(c)
    requires forall i | 1 <= i <= n :: GenerateIp(c, i) in used
    ensures |Texts(c, n)| == n
    ensures forall x <- Texts(c, n) :: x in used
  {
    hide GenerateIp, NodeNetwork;
    if n > 0 {
      TextsSize(c, n - 1, used);
      LaterTextIsNew(c, n - 1, n);
    }
  }

  lemma {:induction false} SeqHoldsSet(xs: seq<string>, s: set<string>)
    requires forall x <- s :: x in xs
    ensures |s| <= |xs|
  {
    if xs == [] {
      assert s == {};
    } else {
      SeqHoldsSet(xs[1..], s - {xs[0]});
      assert s <= s - {xs[0]} + {xs[0]};
    }
  }

  /** Pigeonhole: while fewer addresses are listed than there are hosts, one is free. */
  lemma {:induction false} FreeWhileNotFull(c: Cidr, used: seq<string>)
    requires NodeNetwork(c) && |used| < HostCount(c)
    ensures FirstFree(c, used, 1).Some?
  {
    if FirstFree(c, used, 1).None? {
      TextsSize(c, HostCount(c), used);
      SeqHoldsSet(used, Texts(c, HostCount(c)));
    }
  }

  // ---------------------------------------------------------------- operations

  datatype Allocation = Allocated(ip: string) | Refused | Thrown

  /** A first allocation lists the subnet and assigns it, or, when a write fails, leaves the shared
      list as it was, without the subnet, or, when the rollback fails as well, with it. After a failed
      read the shared list is the one that starts from nothing. */
  ghost predicate Registered(before: map<string, string>, after: map<string, string>, node: Name, subnet: string,
                             read: bool, ok: bool) {
    var all := Seen(ViewOf(before)[Subnets], read) + [subnet];
    && Stored(after) && Foreign(after) == Foreign(before)
    && if ok then ViewOf(after) == ViewOf(before)[Subnets := all][NodeSubnet(node) := [subnet]]
       else || ViewOf(after) == ViewOf(before)
            || ViewOf(after) == ViewOf(before)[Subnets := all]
            || ViewOf(after) == ViewOf(before)[Subnets := Without(all, subnet)]
  }

  /** The subnet stored for a node, if it parses. */
  function NetworkOf(kv: map<string, string>, node: Name): (r: Option<Cidr>)
    ensures r.Some? ==> r.value.Valid()
  {
    ParseNetwork(Read(kv, KeyText(NodeSubnet(node))))
  }

  ghost predicate Allocatable(c: Option<Cidr>) {
    c.Some? && c.value.Valid() && 1 <= c.value.prefix < MAX_PREFIX
  }

  ghost predicate HostOf(c: Option<Cidr>, ip: string) {
    Allocatable(c) && exists i :: 1 <= i <= HostCount(c.value) && ip == GenerateIp(c.value, i)
  }

  ghost function FirstFit(c: Cidr, used: seq<string>): Allocation
    requires Allocatable(Some(c))
  {
    var i := FirstFree(c, used, 1);
    if i.Some? then Allocated(GenerateIp(c, i.value)) else Refused
  }

  /** First fit in terms of addresses: the lowest address strictly between the network's and the
      broadcast address whose text is not in use, and a refusal only when all of them are. */
  lemma FirstFitExact(c: Cidr, used: seq<string>)
    requires NodeNetwork(c)
    ensures match FirstFit(c, used)
            case Thrown => false
            case Refused => NoneFree(c, used)
            case Allocated(ip) =>
              exists a: nat :: c.addr < a < c.addr + Pow2(32 - c.prefix) - 1 && IsLeastFree(c, used, a, ip)
  {
    hide Pow2, ZeroBits, RenderCidr, FirstFree, GenerateIp;
    var found := FirstFree(c, used, 1);
    HostsExact(c, c.addr);
    if found.Some? {
      var a := c.addr + found.value;
      HostTextAt(c, a);
      forall b: nat | c.addr < b < a ensures RenderCidr(Cidr(b, c.prefix)) in used { HostTextAt(c, b); }
      LeastFreeIs(c, used, a);
    } else {
      forall a: nat | c.addr < a <= c.addr + HostCount(c) ensures InUse(c, used, a) { HostTextAt(c, a); }
      NoneFreeIs(c, used);
    }
  }

  lemma HostTextAt(c: Cidr, a: nat)
    requires NodeNetwork(c) && c.addr < a <= c.addr + HostCount(c)
    ensures a < 0x1_0000_0000 && GenerateIp(c, a - c.addr) == RenderCidr(Cidr(a, c.prefix))
  {
    hide Pow2, ZeroBits, RenderCidr;
    HostInside(c, a - c.addr);
  }

  ghost predicate InUse(c: Cidr, used: seq<string>, a: nat) {
    a < 0x1_0000_0000 && RenderCidr(Cidr(a, c.prefix)) in used
  }

  /** Every address strictly between the network's and the broadcast address is in use. */
  ghost predicate NoneFree(c: Cidr, used: seq<string>)
    requires c.prefix <= 32
  {
    forall a: nat | c.addr < a < c.addr + Pow2(32 - c.prefix) - 1 :: InUse(c, used, a)
  }

  lemma NoneFreeIs(c: Cidr, used: seq<string>)
    requires NodeNetwork(c) && forall a: nat | c.addr < a <= c.addr + HostCount(c) :: InUse(c, used, a)
    ensures NoneFree(c, used)
  {
    hide Pow2, InUse, ZeroBits;
    HostsExact(c, c.addr);
  }

  ghost predicate IsLeastFree(c: Cidr, used: seq<string>, a: nat, ip: string) {
    && a < 0x1_0000_0000 && ip == RenderCidr(Cidr(a, c.prefix)) && ip !in used
    && forall b: nat | c.addr < b < a :: RenderCidr(Cidr(b, c.prefix)) in used
  }

  lemma LeastFreeIs(c: Cidr, used: seq<string>, a: nat)
    requires a < 0x1_0000_0000 && RenderCidr(Cidr(a, c.prefix)) !in used
    requires forall b: nat | c.addr < b < a :: RenderCidr(Cidr(b, c.prefix)) in used
    ensures IsLeastFree(c, used, a, RenderCidr(Cidr(a, c.prefix)))
  {
  }

  lemma HostTextIsToken(c: Cidr, i: nat)
    requires c.Valid() && i >= 1
    ensures Token(GenerateIp(c, i))
  {
    CidrTextIsToken(Cidr(HostAddress(c, i), c.prefix));
  }

  lemma EmptyIsNoNetwork()
    ensures ParseNetwork("") == None
  {
  }

  lemma ViewAt(kv: map<string, string>, k: Key)
    ensures k in ViewOf(kv) && ViewOf(kv)[k] == ListAt(kv, KeyText(k))
  {
  }

  /** One index of the search: it is the result, or the search goes on behind it. */
  lemma TriedHost(c: Cidr, used: seq<string>, i: nat)
    requires c.Valid() && 1 <= c.prefix < MAX_PREFIX && 1 <= i <= HostCount(c)
    ensures FirstFree(c, used, i) == if GenerateIp(c, i) in used then FirstFree(c, used, i + 1) else Some(i)
  {
    hide GenerateIp;
  }

  lemma {:induction false} NoneBeyond(c: Cidr, used: seq<string>, i: nat)
    requires c.Valid() && 1 <= c.prefix < MAX_PREFIX && i > HostCount(c)
    ensures FirstFree(c, used, i) == None
  {
  }

  /** When an append overwrites a node's address list, every address given out before is available
      again: the next first fit is the first host, or the second if the first is the one just listed. */
  lemma {:induction false} OverwrittenAddresses(kv: map<string, string>, node: Name, c: Cidr, ip: string)
    requires Stored(kv) && NodeNetwork(c) && HostOf(Some(c), ip)
    ensures var key := KeyText(Addresses(node));
            var after := kv[key := Appended(kv, key, ip, false)];
            && (forall x <- ListAt(kv, key) :: x != ip ==> x !in ListAt(after, key))
            && (ListAt(after, key) == ListAt(kv, key) + [ip] <==> key !in kv)
            && (HostCount(c) >= 2 ==>
                FirstFree(c, ListAt(after, key), 1) == Some(if ip == GenerateIp(c, 1) then 2 else 1))
  {
    hide KeyText, GenerateIp, Stored, ListAt, Appended, Token, NodeNetwork;
    var key := KeyText(Addresses(node));
    assert CleanAt(kv, key) by { StoredAt(kv, Addresses(node)); }
    var i :| 1 <= i <= HostCount(c) && ip == GenerateIp(c, i);
    HostTextIsToken(c, i);
    OverwriteExact(kv, key, ip);
    if HostCount(c) >= 2 && GenerateIp(c, 1) == GenerateIp(c, 2) { GenerateIpInjective(c, 1, 2); }
  }

  lemma StoredAt(kv: map<string, string>, k: Key)
    requires Stored(kv)
    ensures CleanAt(kv, KeyText(k))
  {
  }

  /** The indices of the free hosts below `n`. */
  ghost function FreeBelow(c: Cidr, used: seq<string>, n: nat): set<nat>
    requires c.Valid()
  {
    set i: nat | 1 <= i < n && GenerateIp(c, i) !in used
  }

  lemma FreeBelowMore(c: Cidr, used: seq<string>, n: nat)
    requires c.Valid() && n >= 1
    ensures FreeBelow(c, used, 1) == {}
    ensures |FreeBelow(c, used, n + 1)| == |FreeBelow(c, used, n)| + if GenerateIp(c, n) !in used then 1 else 0
  {
    hide GenerateIp;
    var more, less := FreeBelow(c, used, n + 1), FreeBelow(c, used, n);
    assert more == less + if GenerateIp(c, n) !in used then {n} else {};
  }

  /** Every free host is tried in turn, and each failed write costs one: after `lost` of them the next
      free host is given, and only when every free host cost one is the request refused. */
  ghost predicate NextFree(c: Cidr, used: seq<string>, lost: nat, r: Allocation)
    requires Allocatable(Some(c))
  {
    match r
    case Thrown => false
    case Refused => |FreeBelow(c, used, HostCount(c) + 1)| == lost
    case Allocated(ip) =>
      exists i: nat ::
        1 <= i <= HostCount(c) && ip == GenerateIp(c, i) && ip !in used && |FreeBelow(c, used, i)| == lost
  }

  class Ipam {
    const client: Client

    constructor (client: Client)
      ensures this.client == client
    {
      this.client := client;
    }

    method GetSubnet(node: Name) returns (ok: bool, subnet: string)
      ensures ok ==> subnet != ""
      ensures subnet == Read(client.kv, KeyText(NodeSubnet(node))) || (!client.reliableReads && subnet == "")
      ensures ok <==> subnet != ""
    {
      ok, subnet := client.Get(KeyText(NodeSubnet(node)));
      if !ok { return; }
      ok := subnet != "";
    }

    /** `podCidr` is what the API server reports for the node. `known` tells whether the stored subnet
        was read: a read that fails makes a known subnet be registered again. */
    method AllocateSubnet(node: Name, podCidr: string)
      returns (ok: bool, subnet: string, ghost known: bool, ghost read: bool)
      requires Stored(client.kv) && Token(podCidr)
      modifies client`kv, client`lost
      ensures known ==> ok && client.kv == old(client.kv) && subnet != ""
                        && subnet == Join(old(ViewOf(client.kv))[NodeSubnet(node)], COMMA)
      ensures !known ==>
        Registered(old(client.kv), client.kv, node, podCidr, read, ok) && subnet == if ok then podCidr else ""
      ensures client.lost >= old(client.lost) + (if ok then 0 else 1)
      ensures client.reliableReads && !ok && client.lost == old(client.lost) + 1 ==>
        ViewOf(client.kv)[Subnets]
          in {old(ViewOf(client.kv))[Subnets], Without(old(ViewOf(client.kv))[Subnets] + [podCidr], podCidr)}
      ensures client.reliableReads ==> read && (known <==> old(ViewOf(client.kv))[NodeSubnet(node)] != [])
      ensures client.reliableWrites ==> ok
    {
      hide Stored, Foreign, KeyText, Token, ListAt;
      ReadEntry(client.kv, NodeSubnet(node));
      read := true;
      ok, subnet := GetSubnet(node);
      known := ok;
      if ok { return; }
      subnet := podCidr;
      ok, read := Register(node, subnet);
      if ok { return; }
      subnet := "";
    }

    /** The writes of a first allocation, with the rollback of the shared list. */
    method Register(node: Name, subnet: string) returns (ok: bool, ghost read: bool)
      requires Stored(client.kv) && Token(subnet)
      modifies client`kv, client`lost
      ensures Registered(old(client.kv), client.kv, node, subnet, read, ok)
      // The subnet stays listed only when a second write fails, the rollback's.
      ensures client.lost >= old(client.lost) + (if ok then 0 else 1)
      ensures client.reliableReads && !ok && client.lost == old(client.lost) + 1 ==>
        ViewOf(client.kv)[Subnets]
          in {old(ViewOf(client.kv))[Subnets], Without(old(ViewOf(client.kv))[Subnets] + [subnet], subnet)}
      ensures client.reliableReads ==> read
      ensures client.reliableWrites ==> ok
    {
      hide Stored, Foreign, KeyText, ListAt, Without;
      ghost var before := client.kv;
      ok, read := client.Append(KeyText(Subnets), subnet);
      AppendEntry(before, Subnets, subnet, read);
      if !ok { return; }
      ghost var mid := client.kv;
      PutEntry(mid, NodeSubnet(node), subnet);
      ok := client.Put(KeyText(NodeSubnet(node)), subnet);
      if ok { return; }
      RemoveEntry(mid, Subnets, subnet);
      var undone := client.DelValue(KeyText(Subnets), subnet);
      Rewritten(ViewOf(before), Subnets, ViewOf(mid)[Subnets], Without(ViewOf(mid)[Subnets], subnet));
    }

    /** A failed read or write of the shared list leaves the subnet listed. */
    method ReleaseSubnet(node: Name, subnet: string) returns (ok: bool)
      requires Stored(client.kv)
      modifies client`kv, client`lost
      ensures Stored(client.kv) && Foreign(client.kv) == old(Foreign(client.kv))
      ensures ok ==> ViewOf(client.kv) == old(ViewOf(client.kv))[NodeSubnet(node) := []]
                                          [Subnets := Without(old(ViewOf(client.kv))[Subnets], subnet)]
      ensures !ok ==> client.kv == old(client.kv) || Changed(old(client.kv), client.kv, NodeSubnet(node), [])
      ensures client.reliableReads ==> client.lost == old(client.lost) + (if ok then 0 else 1)
      ensures client.reliableReads && client.reliableWrites ==> ok
    {
      DelEntry(client.kv, NodeSubnet(node));
      ok := client.Del(KeyText(NodeSubnet(node)));
      if !ok { return; }
      RemoveEntry(client.kv, Subnets, subnet);
      ok := client.DelValue(KeyText(Subnets), subnet);
    }

    /** A failed read counts as available. */
    method IsIpAvailable(node: Name, ip: string) returns (available: bool)
      requires ip != ""
      ensures available <==> ip !in ListAt(client.kv, KeyText(Addresses(node))) || (available && !client.reliableReads)
      ensures client.reliableReads ==> (available <==> ip !in ListAt(client.kv, KeyText(Addresses(node))))
    {
      var ok, all := client.List(KeyText(Addresses(node)));
      if !ok { return true; }
      available := ip !in all;
    }

    /** First fit over the host indices. A subnet that does not parse, or a /32, throws. When reads
        are reliable the address was in nobody's use; when writes are as well it is the first free
        one, and only a full list is refused. A failed write moves on to the next index. `read` tells
        whether the append read the list; when it did not, the address replaces the list. */
    method AllocateIp(node: Name) returns (r: Allocation, ghost read: bool)
      requires Stored(client.kv)
      requires var c := NetworkOf(client.kv, node); c.Some? ==> c.value.prefix >= 1
      modifies client`kv, client`lost
      ensures !r.Allocated? ==> client.kv == old(client.kv)
      ensures r.Thrown? ==>
        && Read(old(client.kv), KeyText(NodeSubnet(node))) != ""
        && !Allocatable(NetworkOf(old(client.kv), node))
      ensures client.reliableReads && Read(old(client.kv), KeyText(NodeSubnet(node))) != "" ==>
        (r.Thrown? <==> !Allocatable(NetworkOf(old(client.kv), node)))
      ensures r.Allocated? ==>
        && HostOf(NetworkOf(old(client.kv), node), r.ip)
        && var used := old(ViewOf(client.kv))[Addresses(node)];
           && Changed(old(client.kv), client.kv, Addresses(node), Seen(used, read) + [r.ip])
           && (client.reliableReads ==> read && r.ip !in used)
      ensures client.reliableReads && client.reliableWrites && Allocatable(NetworkOf(old(client.kv), node)) ==>
        r == FirstFit(NetworkOf(old(client.kv), node).value, old(ViewOf(client.kv))[Addresses(node)])
      ensures client.lost >= old(client.lost)
      ensures client.reliableReads && Allocatable(NetworkOf(old(client.kv), node)) ==>
        NextFree(NetworkOf(old(client.kv), node).value, old(ViewOf(client.kv))[Addresses(node)],
                 client.lost - old(client.lost), r)
    {
      hide FirstFree, Stored, Foreign, ViewOf, KeyText, GenerateIp, ParseNetwork, Read, Seen, Appended;
      ViewAt(client.kv, Addresses(node));
      EmptyIsNoNetwork();
      read := true;
      var ok, subnet := GetSubnet(node);
      if !ok { return Refused, read; }
      var parsed := ParseNetwork(subnet);
      if parsed.None? { return Thrown, read; }
      var c := parsed.value;
      var maxHosts := MaxHosts(c);
      if maxHosts.None? { return Thrown, read; }
      ghost var before := client.kv;
      ghost var used := ViewOf(before)[Addresses(node)];
      ghost var lost := client.lost;
      FreeBelowMore(c, used, 1);
      assert maxHosts.value - 2 == HostCount(c);
      var i := 1;
      while i < maxHosts.value - 1
        invariant 1 <= i <= maxHosts.value - 1
        invariant client.kv == before && client.lost >= lost
        invariant client.reliableReads ==> client.lost == lost + |FreeBelow(c, used, i)|
        invariant client.reliableReads && client.reliableWrites ==> FirstFree(c, used, 1) == FirstFree(c, used, i)
      {
        var candidate := GenerateIp(c, i);
        HostTextIsToken(c, i);
        TriedHost(c, used, i);
        FreeBelowMore(c, used, i);
        var available := IsIpAvailable(node, candidate);
        if available {
          ok, read := client.Append(KeyText(Addresses(node)), candidate);
          AppendEntry(before, Addresses(node), candidate, read);
          if ok { return Allocated(candidate), read; }
        }
        i := i + 1;
      }
      NoneBeyond(c, used, i);
      r := Refused;
    }

    method ReleaseIp(node: Name, ip: string) returns (ok: bool)
      requires Stored(client.kv)
      modifies client`kv, client`lost
      ensures ok ==>
        Changed(old(client.kv), client.kv, Addresses(node), Without(old(ViewOf(client.kv))[Addresses(node)], ip))
      ensures client.reliableReads ==> client.lost == old(client.lost) + (if ok then 0 else 1)
      ensures !ok ==> client.kv == old(client.kv)
      ensures client.reliableReads && client.reliableWrites ==> ok
    {
      RemoveEntry(client.kv, Addresses(node), ip);
      ok := client.DelValue(KeyText(Addresses(node)), ip);
    }
  }
}
