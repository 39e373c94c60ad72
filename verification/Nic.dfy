/** The device object of src/net/nic.cc: what it recorded of the entries it made, beside the kernel
    tables they are in. */
module Nic {
  import opened Storage
  import opened Netlink

  datatype Neigh = Neigh(addr: string, mac: string, dev: string)

  // ---------------------------------------------------------------- records and tables

  /** Every recorded route is in the kernel table. */
  ghost predicate Recorded(records: seq<Route>, routes: Routes) {
    forall r <- records :: HasRoute(routes, r.dest, r.via, r.dev)
  }

  /** `std::remove_if` and `erase` on a vector of routes. */
  function OtherRoutes(records: seq<Route>, gone: Route): (r: seq<Route>)
    ensures forall x :: x in r <==> x in records && x != gone
  {
    if records == [] then [] else
      (if records[0] == gone then [] else [records[0]]) + OtherRoutes(records[1..], gone)
  }

  function OtherAddrs(records: seq<string>, gone: string): (r: seq<string>)
    ensures forall x :: x in r <==> x in records && x != gone
  {
    if records == [] then [] else
      (if records[0] == gone then [] else [records[0]]) + OtherAddrs(records[1..], gone)
  }

  function OtherNeighs(records: seq<Neigh>, gone: Neigh): (r: seq<Neigh>)
    ensures forall x :: x in r <==> x in records && x != gone
  {
    if records == [] then [] else
      (if records[0] == gone then [] else [records[0]]) + OtherNeighs(records[1..], gone)
  }

  /** The FDB erase compares no device. */
  function OtherFdbs(records: seq<FdbEntry>, mac: string, underlay: string): (r: seq<FdbEntry>)
    ensures forall x :: x in r <==> x in records && !(x.mac == mac && x.underlay == underlay)
  {
    if records == [] then [] else
      (if records[0].mac == mac && records[0].underlay == underlay then [] else [records[0]])
        + OtherFdbs(records[1..], mac, underlay)
  }

  /** Deleting a route keeps the records true exactly when every record of that kernel route was
      made with the same destination text and the same device. */
  lemma {:induction false} DeletionExact(records: seq<Route>, routes: Routes, dest: string, via: string, dev: string)
    requires Recorded(records, routes) && HasRoute(routes, dest, via, dev)
    ensures Recorded(OtherRoutes(records, Route(dest, via, dev)), routes - {KeyOf(dest, via)}) <==>
            forall r <- records :: KeyOf(r.dest, r.via) == KeyOf(dest, via) ==> r == Route(dest, via, dev)
  {
    var left, after := OtherRoutes(records, Route(dest, via, dev)), routes - {KeyOf(dest, via)};
    if Recorded(left, after) {
      forall r <- records | KeyOf(r.dest, r.via) == KeyOf(dest, via)
        ensures r == Route(dest, via, dev)
      {
        assert !HasRoute(after, r.dest, r.via, r.dev);
        assert r !in left;
      }
    }
  }

  /** The kernel routes that stand for recorded ones. */
  ghost function Owned(records: seq<Route>, routes: Routes): set<RouteKey> {
    set r | r in records && HasRoute(routes, r.dest, r.via, r.dev) :: KeyOf(r.dest, r.via)
  }

  class Nic {
    const kernel: Kernel
    const isUser: bool
    var name: string
    var addrs: seq<string>
    var routes: seq<Route>
    var neighs: seq<Neigh>
    var fdbs: seq<FdbEntry>

    constructor (kernel: Kernel, isUser: bool, name: string)
      ensures this.kernel == kernel && this.isUser == isUser && this.name == name
      ensures addrs == [] && routes == [] && neighs == [] && fdbs == []
    {
      this.kernel, this.isUser, this.name := kernel, isUser, name;
      addrs, routes, neighs, fdbs := [], [], [], [];
    }

    ghost predicate RoutesRecorded()
      reads this, kernel
    {
      Recorded(routes, kernel.routes)
    }

    method AddAddr(cidr: string) returns (ok: bool)
      modifies this`addrs, kernel`addrs
      ensures ok ==> addrs == old(addrs) + [cidr] && kernel.addrs == old(kernel.addrs) + {AddrEntry(name, cidr)}
      ensures !ok ==> addrs == old(addrs) && kernel.addrs == old(kernel.addrs) && AddrEntry(name, cidr) !in kernel.addrs
      ensures kernel.addsSucceed ==> ok
    {
      if AddrEntry(name, cidr) !in kernel.addrs {
        ok := kernel.AddAddr(name, cidr);
        if !ok { return; }
      }
      addrs := addrs + [cidr];
      ok := true;
    }

    /** An address the kernel does not have is not taken out of the records. */
    method DelAddr(cidr: string) returns (ok: bool)
      modifies this`addrs, kernel`addrs
      ensures ok ==>
        AddrEntry(name, cidr) !in kernel.addrs && kernel.addrs == old(kernel.addrs) - {AddrEntry(name, cidr)}
      ensures !ok ==> kernel.addrs == old(kernel.addrs)
      ensures addrs == if ok && AddrEntry(name, cidr) in old(kernel.addrs) then OtherAddrs(old(addrs), cidr)
        else old(addrs)
      ensures kernel.delsSucceed ==> ok
    {
      if AddrEntry(name, cidr) in kernel.addrs {
        ok := kernel.DelAddr(name, cidr);
        if !ok { return; }
        addrs := OtherAddrs(addrs, cidr);
      }
      ok := true;
    }

    /** A route that exists on any device, when none is named, is recorded without being added. */
    method AddRoute(route: Route) returns (ok: bool)
      modifies this`routes, kernel`routes
      ensures ok ==> routes == old(routes) + [route] && HasRoute(kernel.routes, route.dest, route.via, route.dev)
      ensures ok && !HasRoute(old(kernel.routes), route.dest, route.via, route.dev) ==>
        && KeyOf(route.dest, route.via) !in old(kernel.routes)
        && kernel.routes ==
          old(kernel.routes)[KeyOf(route.dest, route.via) := kernel.routes[KeyOf(route.dest, route.via)]]
      ensures HasRoute(old(kernel.routes), route.dest, route.via, route.dev) ==>
        ok && kernel.routes == old(kernel.routes)
      ensures !ok ==> routes == old(routes) && kernel.routes == old(kernel.routes)
      ensures kernel.addsSucceed && route.via != "" && KeyOf(route.dest, route.via) !in old(kernel.routes) ==> ok
      ensures old(RoutesRecorded()) ==> RoutesRecorded()
    {
      if !HasRoute(kernel.routes, route.dest, route.via, route.dev) {
        ok := kernel.AddRoute(route.dest, route.via, route.dev);
        if !ok { return; }
      }
      routes := routes + [route];
      ok := true;
    }

    method DelRoute(dest: string, via: string, dev: string) returns (ok: bool)
      modifies this`routes, kernel`routes
      ensures ok && HasRoute(old(kernel.routes), dest, via, dev) ==>
        && routes == OtherRoutes(old(routes), Route(dest, via, dev))
        && kernel.routes == old(kernel.routes) - {KeyOf(dest, via)}
      ensures !HasRoute(old(kernel.routes), dest, via, dev) ==>
        ok && routes == old(routes) && kernel.routes == old(kernel.routes)
      ensures !ok ==> routes == old(routes) && kernel.routes == old(kernel.routes)
      ensures kernel.delsSucceed ==> ok
      ensures old(RoutesRecorded()) &&
              (forall r <- old(routes) :: KeyOf(r.dest, r.via) == KeyOf(dest, via) ==> r == Route(dest, via, dev))
              ==> RoutesRecorded()
    {
      if HasRoute(kernel.routes, dest, via, dev) {
        ok := kernel.DelRoute(dest, via, dev);
        if !ok { return; }
        if Recorded(routes, old(kernel.routes)) { DeletionExact(routes, old(kernel.routes), dest, via, dev); }
        routes := OtherRoutes(routes, Route(dest, via, dev));
      }
      ok := true;
    }

    method AddNeigh(neigh: Neigh) returns (ok: bool)
      modifies this`neighs, kernel`neighs
      ensures ok ==> neighs == old(neighs) + [neigh] && HasNeigh(kernel.neighs, neigh.addr, neigh.dev)
      ensures ok && !HasNeigh(old(kernel.neighs), neigh.addr, neigh.dev) ==>
        kernel.neighs == old(kernel.neighs)[NeighKey(neigh.addr, neigh.dev) := neigh.mac]
      ensures HasNeigh(old(kernel.neighs), neigh.addr, neigh.dev) ==> ok && kernel.neighs == old(kernel.neighs)
      ensures !ok ==> neighs == old(neighs) && kernel.neighs == old(kernel.neighs)
      ensures kernel.addsSucceed && neigh.addr != "" ==> ok
    {
      if !HasNeigh(kernel.neighs, neigh.addr, neigh.dev) {
        ok := kernel.AddNeigh(neigh.addr, neigh.mac, neigh.dev);
        if !ok { return; }
      }
      neighs := neighs + [neigh];
      ok := true;
    }

    method DelNeigh(addr: string, mac: string, dev: string) returns (ok: bool)
      modifies this`neighs, kernel`neighs
      ensures ok && HasNeigh(old(kernel.neighs), addr, dev) ==>
        neighs == OtherNeighs(old(neighs), Neigh(addr, mac, dev))
        && kernel.neighs == old(kernel.neighs) - {NeighKey(addr, dev)}
      ensures !HasNeigh(old(kernel.neighs), addr, dev) ==>
        ok && neighs == old(neighs) && kernel.neighs == old(kernel.neighs)
      ensures !ok ==> neighs == old(neighs) && kernel.neighs == old(kernel.neighs)
      ensures kernel.delsSucceed ==> ok
    {
      if HasNeigh(kernel.neighs, addr, dev) {
        ok := kernel.DelNeigh(addr, dev);
        if !ok { return; }
        neighs := OtherNeighs(neighs, Neigh(addr, mac, dev));
      }
      ok := true;
    }

    method AddFdb(fdb: FdbEntry) returns (ok: bool)
      modifies this`fdbs, kernel`fdbs
      ensures ok ==> fdbs == old(fdbs) + [fdb] && kernel.fdbs == old(kernel.fdbs) + {fdb}
      ensures ok ==>
        HasFdb(old(kernel.fdbs), fdb.mac, fdb.underlay, fdb.dev) || !FdbTaken(old(kernel.fdbs), fdb.mac, fdb.dev)
      ensures HasFdb(old(kernel.fdbs), fdb.mac, fdb.underlay, fdb.dev) ==> ok
      ensures !ok ==>
        fdbs == old(fdbs) && kernel.fdbs == old(kernel.fdbs) && !HasFdb(kernel.fdbs, fdb.mac, fdb.underlay, fdb.dev)
      ensures kernel.addsSucceed && fdb.mac != "" && fdb.underlay != "" ==>
        ok || FdbTaken(old(kernel.fdbs), fdb.mac, fdb.dev)
    {
      if !HasFdb(kernel.fdbs, fdb.mac, fdb.underlay, fdb.dev) {
        ok := kernel.AddFdb(fdb.mac, fdb.underlay, fdb.dev);
        if !ok { return; }
      }
      fdbs := fdbs + [fdb];
      ok := true;
    }

    method DelFdb(underlay: string, mac: string, dev: string) returns (ok: bool)
      modifies this`fdbs, kernel`fdbs
      ensures ok && HasFdb(old(kernel.fdbs), mac, underlay, dev) ==>
        fdbs == OtherFdbs(old(fdbs), mac, underlay) && kernel.fdbs == old(kernel.fdbs) - {FdbEntry(mac, underlay, dev)}
      ensures !HasFdb(old(kernel.fdbs), mac, underlay, dev) ==>
        ok && fdbs == old(fdbs) && kernel.fdbs == old(kernel.fdbs)
      ensures !ok ==> fdbs == old(fdbs) && kernel.fdbs == old(kernel.fdbs)
      ensures kernel.delsSucceed ==> ok
    {
      if HasFdb(kernel.fdbs, mac, underlay, dev) {
        ok := kernel.DelFdb(mac, underlay, dev);
        if !ok { return; }
        fdbs := OtherFdbs(fdbs, mac, underlay);
      }
      ok := true;
    }

    /** Deletes what was recorded; the records themselves are kept. When deletions succeed, the
        recorded routes are gone and every other route is as it was. */
    method Cleanup()
      modifies kernel
      ensures routes == old(routes) && addrs == old(addrs)
      ensures kernel.neighs == old(kernel.neighs) && kernel.fdbs == old(kernel.fdbs)
      ensures kernel.delsSucceed ==> kernel.routes == old(kernel.routes) - Owned(routes, old(kernel.routes))
      ensures kernel.delsSucceed ==> forall r <- routes :: !HasRoute(kernel.routes, r.dest, r.via, r.dev)
      ensures !isUser ==> kernel.addrs == old(kernel.addrs) && kernel.links == old(kernel.links)
      ensures kernel.delsSucceed && isUser ==>
        && kernel.addrs == old(kernel.addrs) - (set a | a in addrs :: AddrEntry(name, a))
        && kernel.links == old(kernel.links) - {name}
    {
      for i := 0 to |routes|
        invariant routes == old(routes) && addrs == old(addrs)
        invariant kernel.neighs == old(kernel.neighs) && kernel.fdbs == old(kernel.fdbs)
        invariant kernel.addrs == old(kernel.addrs) && kernel.links == old(kernel.links)
        invariant kernel.delsSucceed ==> kernel.routes == old(kernel.routes) - Owned(routes[..i], old(kernel.routes))
      {
        var r := routes[i];
        assert routes[..i + 1] == routes[..i] + [r];
        if HasRoute(kernel.routes, r.dest, r.via, r.dev) {
          var _ := kernel.DelRoute(r.dest, r.via, r.dev);
        }
      }
      assert routes[..|routes|] == routes;
      if isUser {
        CleanupUser();
      }
    }

    method CleanupUser()
      modifies kernel`addrs, kernel`links
      ensures kernel.delsSucceed ==>
        && kernel.addrs == old(kernel.addrs) - (set a | a in addrs :: AddrEntry(name, a))
        && kernel.links == old(kernel.links) - {name}
    {
      for i := 0 to |addrs|
        invariant kernel.links == old(kernel.links)
        invariant kernel.delsSucceed ==>
          kernel.addrs == old(kernel.addrs) - (set a | a in addrs[..i] :: AddrEntry(name, a))
      {
        assert addrs[..i + 1] == addrs[..i] + [addrs[i]];
        var _ := kernel.DelAddr(name, addrs[i]);
      }
      assert addrs[..|addrs|] == addrs;
      var _ := kernel.DestroyLink(name);
    }
  }

  // ---------------------------------------------------------------- runs of route edits

  datatype RouteEdit = Addition(route: Route) | Deletion(route: Route)

  /** Every record and every edit of one kernel route spells it alike, device included. */
  ghost predicate SpeltAlike(spelt: RouteKey -> Route, routes: seq<Route>) {
    forall r <- routes :: spelt(KeyOf(r.dest, r.via)) == r
  }

  /** Additions and deletions in any order, with any failures: as long as deletions name the device of
      the addition, every record stays true, and a record is there only of a route that was recorded
      before or is added. */
  method EditRoutes(nic: Nic, edits: seq<RouteEdit>, ghost spelt: RouteKey -> Route)
    requires nic.RoutesRecorded() && SpeltAlike(spelt, nic.routes)
    requires forall x <- edits :: SpeltAlike(spelt, [x.route])
    modifies nic`routes, nic.kernel`routes
    ensures nic.RoutesRecorded() && SpeltAlike(spelt, nic.routes)
    ensures forall r <- nic.routes :: r in old(nic.routes) || Addition(r) in edits
  {
    hide HasRoute, KeyOf, Recorded;
    for i := 0 to |edits|
      invariant nic.RoutesRecorded() && SpeltAlike(spelt, nic.routes)
      invariant forall r <- nic.routes :: r in old(nic.routes) || Addition(r) in edits
    {
      var x := edits[i];
      assert x in edits && x.route in [x.route];
      match x
      case Addition(r) =>
        var _ := nic.AddRoute(r);
      case Deletion(r) =>
        var _ := nic.DelRoute(r.dest, r.via, r.dev);
    }
  }
}
