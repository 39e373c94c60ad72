/** The kernel tables of one network namespace, as src/net/netlink/netlink_ip_cmd.cc reads and edits
    them. Probes are reliable; adding and deleting commands may fail, and then change nothing. */
module Netlink {

  /** The kernel keeps one route per destination and next hop. */
  datatype RouteKey = RouteKey(dest: string, via: string)
  datatype NeighKey = NeighKey(addr: string, dev: string)
  datatype FdbEntry = FdbEntry(mac: string, underlay: string, dev: string)
  datatype AddrEntry = AddrEntry(dev: string, cidr: string)

  type Routes = map<RouteKey, string>
  type Neighs = map<NeighKey, string>

  function KeyOf(dest: string, via: string): RouteKey {
    RouteKey(if dest == "" then "default" else dest, via)
  }

  /** The probe of a route; without a device it matches on any. A probe with no next hop is a
      malformed command, and reads as absent. */
  predicate HasRoute(routes: Routes, dest: string, via: string, dev: string) {
    via != "" && KeyOf(dest, via) in routes && (dev == "" || routes[KeyOf(dest, via)] == dev)
  }

  /** Two routes are one kernel route exactly if they agree in next hop and in destination, where no
      destination is the default. */
  lemma KeyOfExact(dest: string, via: string, dest2: string, via2: string)
    ensures KeyOf(dest, via) == KeyOf(dest2, via2) <==>
            via == via2 && (dest == dest2 || (dest in {"", "default"} && dest2 in {"", "default"}))
    ensures dest != "" ==> KeyOf(dest, via) == RouteKey(dest, via)
  {
  }

  /** The probe of a neighbour names no MAC. */
  predicate HasNeigh(neighs: Neighs, addr: string, dev: string) {
    addr != "" && NeighKey(addr, dev) in neighs
  }

  predicate HasFdb(fdbs: set<FdbEntry>, mac: string, underlay: string, dev: string) {
    mac != "" && underlay != "" && FdbEntry(mac, underlay, dev) in fdbs
  }

  /** A MAC has at most one destination on a device that is added with `bridge fdb add`. */
  predicate FdbTaken(fdbs: set<FdbEntry>, mac: string, dev: string) {
    exists f <- fdbs :: f.mac == mac && f.dev == dev
  }

  class Kernel {
    var routes: Routes
    var neighs: Neighs
    var fdbs: set<FdbEntry>
    var addrs: set<AddrEntry>
    var links: set<string>

    /** Commands of a kind that succeeds do so whenever the kernel has no objection. */
    const addsSucceed: bool
    const delsSucceed: bool

    constructor (routes: Routes, neighs: Neighs, fdbs: set<FdbEntry>, addrs: set<AddrEntry>, links: set<string>,
                 addsSucceed: bool, delsSucceed: bool)
      ensures this.routes == routes && this.neighs == neighs && this.fdbs == fdbs
      ensures this.addrs == addrs && this.links == links
      ensures this.addsSucceed == addsSucceed && this.delsSucceed == delsSucceed
    {
      this.routes, this.neighs, this.fdbs, this.addrs, this.links := routes, neighs, fdbs, addrs, links;
      this.addsSucceed, this.delsSucceed := addsSucceed, delsSucceed;
    }

    method Attempt(sure: bool) returns (ok: bool)
      ensures sure ==> ok
    {
      ok := *;
      ok := ok || sure;
    }

    /** A route that is already there is an error. Without a device the kernel picks one. */
    method AddRoute(dest: string, via: string, dev: string) returns (ok: bool)
      modifies this`routes
      ensures ok ==>
        && via != "" && KeyOf(dest, via) !in old(routes) && KeyOf(dest, via) in routes
        && routes == old(routes)[KeyOf(dest, via) := routes[KeyOf(dest, via)]]
        && (dev != "" ==> routes[KeyOf(dest, via)] == dev)
      ensures !ok ==> routes == old(routes)
      ensures addsSucceed && via != "" && KeyOf(dest, via) !in old(routes) ==> ok
    {
      ok := Attempt(addsSucceed);
      ok := ok && via != "" && KeyOf(dest, via) !in routes;
      if ok {
        var egress: string := *;
        routes := routes[KeyOf(dest, via) := if dev == "" then egress else dev];
      }
    }

    method DelRoute(dest: string, via: string, dev: string) returns (ok: bool)
      modifies this`routes
      ensures ok ==> HasRoute(old(routes), dest, via, dev) && routes == old(routes) - {KeyOf(dest, via)}
      ensures !ok ==> routes == old(routes)
      ensures delsSucceed && HasRoute(old(routes), dest, via, dev) ==> ok
    {
      ok := Attempt(delsSucceed);
      ok := ok && HasRoute(routes, dest, via, dev);
      if ok { routes := routes - {KeyOf(dest, via)}; }
    }

    method AddNeigh(addr: string, mac: string, dev: string) returns (ok: bool)
      modifies this`neighs
      ensures ok ==>
        addr != "" && NeighKey(addr, dev) !in old(neighs) && neighs == old(neighs)[NeighKey(addr, dev) := mac]
      ensures !ok ==> neighs == old(neighs)
      ensures addsSucceed && addr != "" && NeighKey(addr, dev) !in old(neighs) ==> ok
    {
      ok := Attempt(addsSucceed);
      ok := ok && addr != "" && NeighKey(addr, dev) !in neighs;
      if ok { neighs := neighs[NeighKey(addr, dev) := mac]; }
    }

    method DelNeigh(addr: string, dev: string) returns (ok: bool)
      modifies this`neighs
      ensures ok ==> HasNeigh(old(neighs), addr, dev) && neighs == old(neighs) - {NeighKey(addr, dev)}
      ensures !ok ==> neighs == old(neighs)
      ensures delsSucceed && HasNeigh(old(neighs), addr, dev) ==> ok
    {
      ok := Attempt(delsSucceed);
      ok := ok && HasNeigh(neighs, addr, dev);
      if ok { neighs := neighs - {NeighKey(addr, dev)}; }
    }

    method AddFdb(mac: string, underlay: string, dev: string) returns (ok: bool)
      modifies this`fdbs
      ensures ok ==> mac != "" && underlay != "" && !FdbTaken(old(fdbs), mac, dev)
      ensures fdbs == if ok then old(fdbs) + {FdbEntry(mac, underlay, dev)} else old(fdbs)
      ensures addsSucceed && mac != "" && underlay != "" && !FdbTaken(old(fdbs), mac, dev) ==> ok
    {
      ok := Attempt(addsSucceed);
      ok := ok && mac != "" && underlay != "" && !FdbTaken(fdbs, mac, dev);
      if ok { fdbs := fdbs + {FdbEntry(mac, underlay, dev)}; }
    }

    method DelFdb(mac: string, underlay: string, dev: string) returns (ok: bool)
      modifies this`fdbs
      ensures ok ==> HasFdb(old(fdbs), mac, underlay, dev) && fdbs == old(fdbs) - {FdbEntry(mac, underlay, dev)}
      ensures !ok ==> fdbs == old(fdbs)
      ensures delsSucceed && HasFdb(old(fdbs), mac, underlay, dev) ==> ok
    {
      ok := Attempt(delsSucceed);
      ok := ok && HasFdb(fdbs, mac, underlay, dev);
      if ok { fdbs := fdbs - {FdbEntry(mac, underlay, dev)}; }
    }

    method AddAddr(dev: string, cidr: string) returns (ok: bool)
      modifies this`addrs
      ensures addrs == if ok then old(addrs) + {AddrEntry(dev, cidr)} else old(addrs)
      ensures addsSucceed && AddrEntry(dev, cidr) !in old(addrs) ==> ok
    {
      ok := Attempt(addsSucceed);
      ok := ok && AddrEntry(dev, cidr) !in addrs;
      if ok { addrs := addrs + {AddrEntry(dev, cidr)}; }
    }

    method DelAddr(dev: string, cidr: string) returns (ok: bool)
      modifies this`addrs
      ensures addrs == if ok then old(addrs) - {AddrEntry(dev, cidr)} else old(addrs)
      ensures delsSucceed && AddrEntry(dev, cidr) in old(addrs) ==> ok
    {
      ok := Attempt(delsSucceed);
      ok := ok && AddrEntry(dev, cidr) in addrs;
      if ok { addrs := addrs - {AddrEntry(dev, cidr)}; }
    }

    method DestroyLink(dev: string) returns (ok: bool)
      modifies this`links
      ensures links == if ok then old(links) - {dev} else old(links)
      ensures delsSucceed ==> ok
    {
      ok := Attempt(delsSucceed);
      if ok { links := links - {dev}; }
    }
  }
}
