/** The VXLAN reconciler of src/backend/vxlan.cc: for every remote node a route, a neighbour and an
    FDB entry, added together or not at all. */
module Vxlan {
  import opened Text
  import opened Wrappers
  import opened Keys
  import opened Center
  import opened Etcd
  import opened Storage
  import opened Netlink
  import opened Nic

  /** The VXLAN device. */
  const DEVICE: string := "ohnov"

  datatype Endpoint = Endpoint(addr: string, mac: string)

  // ---------------------------------------------------------------- stored endpoints

  /** The VTEP stored for a node; both fields are empty when there is none. */
  function StoredVtep(kv: map<string, string>, n: Name): Endpoint {
    var v := DecodeVtep(Read(kv, KeyText(Vtep(n))));
    if v.Some? then Endpoint(v.value.0, v.value.1) else Endpoint("", "")
  }

  /** Stored VTEP values are of the kind `addVtep` writes: no fields, or an address and
      a MAC. */
  ghost predicate VtepsDecode(kv: map<string, string>) {
    forall n: Name {:trigger StoredVtep(kv, n)} ::
      DecodeVtep(Read(kv, KeyText(Vtep(n)))).Some? && (StoredVtep(kv, n).addr != "" <==> StoredVtep(kv, n).mac != "")
  }

  // ---------------------------------------------------------------- entries

  function RouteFor(info: NodeInfo, e: Endpoint): RouteKey {
    KeyOf(info.podCidr, e.addr)
  }

  function NeighFor(e: Endpoint): NeighKey {
    NeighKey(e.addr, DEVICE)
  }

  function FdbFor(info: NodeInfo, e: Endpoint): FdbEntry {
    FdbEntry(e.mac, info.internalIp, DEVICE)
  }

  /** The three tables of a namespace. */
  datatype Tables = Tables(routes: Routes, neighs: Neighs, fdbs: set<FdbEntry>)

  /** A node's three entries are there. */
  ghost predicate Installed(t: Tables, info: NodeInfo, e: Endpoint) {
    && HasRoute(t.routes, info.podCidr, e.addr, DEVICE)
    && HasNeigh(t.neighs, e.addr, DEVICE)
    && HasFdb(t.fdbs, e.mac, info.internalIp, DEVICE)
  }

  /** None of a node's three entries is there, for any device or underlay address. */
  ghost predicate Missing(t: Tables, info: NodeInfo, e: Endpoint) {
    RouteFor(info, e) !in t.routes && NeighFor(e) !in t.neighs && !FdbTaken(t.fdbs, e.mac, DEVICE)
  }

  /** The record of a node's route. */
  function Recording(info: NodeInfo, e: Endpoint): Route {
    Route(info.podCidr, e.addr, DEVICE)
  }

  ghost function With(t: Tables, info: NodeInfo, e: Endpoint): Tables {
    Tables(t.routes[RouteFor(info, e) := DEVICE], t.neighs[NeighFor(e) := e.mac], t.fdbs + {FdbFor(info, e)})
  }

  /** The tables with a node's entries made sure of: a neighbour that is there keeps its MAC. */
  ghost function Ensured(t: Tables, info: NodeInfo, e: Endpoint): Tables {
    Tables(t.routes[RouteFor(info, e) := DEVICE],
           if NeighFor(e) in t.neighs then t.neighs else t.neighs[NeighFor(e) := e.mac],
           t.fdbs + {FdbFor(info, e)})
  }

  /** Deleting a node's entries with the endpoint `e`; an empty address deletes nothing. */
  ghost function Less(t: Tables, info: NodeInfo, e: Endpoint): Tables {
    Tables(if HasRoute(t.routes, info.podCidr, e.addr, DEVICE) then t.routes - {RouteFor(info, e)} else t.routes,
           if HasNeigh(t.neighs, e.addr, DEVICE) then t.neighs - {NeighFor(e)} else t.neighs,
           if HasFdb(t.fdbs, e.mac, info.internalIp, DEVICE) then t.fdbs - {FdbFor(info, e)} else t.fdbs)
  }

  /** The tables agree on everything but a node's three entries. */
  ghost predicate SameBut(t: Tables, u: Tables, info: NodeInfo, e: Endpoint) {
    && u.routes - {RouteFor(info, e)} == t.routes - {RouteFor(info, e)}
    && u.neighs - {NeighFor(e)} == t.neighs - {NeighFor(e)}
    && u.fdbs - {FdbFor(info, e)} == t.fdbs - {FdbFor(info, e)}
  }

  lemma AnyDevice(routes: Routes, info: NodeInfo, e: Endpoint)
    ensures HasRoute(routes, info.podCidr, e.addr, DEVICE) ==>
      HasRoute(routes, info.podCidr, e.addr, "") && RouteFor(info, e) in routes
    ensures HasRoute(routes, info.podCidr, e.addr, "") ==> RouteFor(info, e) in routes
  {
  }

  lemma HasEntries(t: Tables, info: NodeInfo, e: Endpoint)
    ensures HasRoute(t.routes, info.podCidr, e.addr, DEVICE) <==>
            e.addr != "" && RouteFor(info, e) in t.routes && t.routes[RouteFor(info, e)] == DEVICE
    ensures e.addr != "" ==> (HasNeigh(t.neighs, e.addr, DEVICE) <==> NeighFor(e) in t.neighs)
    ensures e.mac != "" && info.internalIp != "" ==>
      (HasFdb(t.fdbs, e.mac, info.internalIp, DEVICE) <==> FdbFor(info, e) in t.fdbs)
  {
  }

  lemma UntrueRecord(records: seq<Route>, routes: Routes, info: NodeInfo, e: Endpoint)
    requires Recording(info, e) in records && RouteFor(info, e) !in routes
    ensures !Recorded(records, routes)
  {
  }

  lemma {:induction false} MapEdited<K, V>(a: map<K, V>, b: map<K, V>, k: K)
    requires b == a || b == a - {k} || (k in b && b == a[k := b[k]])
    ensures b - {k} == a - {k}
    ensures k !in a && k in b ==> b - {k} == a
  {
  }

  // ---------------------------------------------------------------- nodes do not touch each other

  /** Which node an endpoint's address and MAC belong to. */
  datatype Owners = Owners(addr: string -> Name, mac: string -> Name)

  /** Addresses and MACs of stored endpoints belong to one node each. */
  ghost predicate EndpointsOwned(owners: Owners, kv: map<string, string>) {
    forall n: Name {:trigger StoredVtep(kv, n)} :: StoredVtep(kv, n).addr != "" ==> Of(owners, n, StoredVtep(kv, n))
  }

  ghost predicate Of(owners: Owners, n: Name, e: Endpoint) {
    e.addr != "" && e.mac != "" && owners.addr(e.addr) == n && owners.mac(e.mac) == n
  }

  /** Entries that belong to no node of `names` are the same. */
  ghost predicate OutsideSame(owners: Owners, names: set<Name>, t: Tables, u: Tables) {
    && (forall k: RouteKey :: owners.addr(k.via) !in names ==>
         (k in t.routes <==> k in u.routes) && (k in t.routes && k in u.routes ==> t.routes[k] == u.routes[k]))
    && (forall k: NeighKey :: owners.addr(k.addr) !in names ==>
         (k in t.neighs <==> k in u.neighs) && (k in t.neighs && k in u.neighs ==> t.neighs[k] == u.neighs[k]))
    && (forall f: FdbEntry :: owners.mac(f.mac) !in names ==> (f in t.fdbs <==> f in u.fdbs))
  }

  lemma InMinus<K, V>(a: map<K, V>, b: map<K, V>, k: K, l: K)
    requires a - {k} == b - {k} && l != k
    ensures (l in a <==> l in b) && (l in a && l in b ==> a[l] == b[l])
  {
    assert l in a <==> l in a - {k};
    assert l in b <==> l in b - {k};
    assert l in a && l in b ==> (a - {k})[l] == (b - {k})[l];
  }

  lemma OutsideStep(owners: Owners, names: set<Name>, n: Name, t: Tables, u: Tables, info: NodeInfo, e: Endpoint)
    requires Of(owners, n, e) && n in names && SameBut(t, u, info, e)
    ensures OutsideSame(owners, names, t, u)
  {
    forall k: RouteKey | owners.addr(k.via) !in names
      ensures (k in t.routes <==> k in u.routes) && (k in t.routes && k in u.routes ==> t.routes[k] == u.routes[k])
    {
      InMinus(t.routes, u.routes, RouteFor(info, e), k);
    }
    forall k: NeighKey | owners.addr(k.addr) !in names
      ensures (k in t.neighs <==> k in u.neighs) && (k in t.neighs && k in u.neighs ==> t.neighs[k] == u.neighs[k])
    {
      InMinus(t.neighs, u.neighs, NeighFor(e), k);
    }
    forall f: FdbEntry | owners.mac(f.mac) !in names
      ensures f in t.fdbs <==> f in u.fdbs
    {
      assert f in t.fdbs <==> f in t.fdbs - {FdbFor(info, e)};
      assert f in u.fdbs <==> f in u.fdbs - {FdbFor(info, e)};
    }
  }

  lemma SameOutside(owners: Owners, names: set<Name>, t: Tables)
    ensures OutsideSame(owners, names, t, t)
  {
  }

  lemma OutsideTrans(owners: Owners, names: set<Name>, t: Tables, u: Tables, v: Tables)
    requires OutsideSame(owners, names, t, u) && OutsideSame(owners, names, u, v)
    ensures OutsideSame(owners, names, t, v)
  {
  }

  /** What happens to one node's entries leaves another's installed. */
  lemma OtherInstalled(owners: Owners, n: Name, t: Tables, u: Tables, info: NodeInfo, e: Endpoint, m: Name,
                       other: NodeInfo, f: Endpoint)
    requires Of(owners, n, e) && Of(owners, m, f) && m != n && SameBut(t, u, info, e) && Installed(t, other, f)
    ensures Installed(u, other, f)
  {
    InMinus(t.routes, u.routes, RouteFor(info, e), RouteFor(other, f));
    InMinus(t.neighs, u.neighs, NeighFor(e), NeighFor(f));
    assert FdbFor(other, f) in t.fdbs - {FdbFor(info, e)};
  }

  lemma OutsideMore(owners: Owners, some: set<Name>, names: set<Name>, t: Tables, u: Tables)
    requires OutsideSame(owners, some, t, u) && some <= names
    ensures OutsideSame(owners, names, t, u)
  {
  }

  /** None of a node's entries is there. */
  ghost predicate Gone(t: Tables, info: NodeInfo, e: Endpoint) {
    && !HasRoute(t.routes, info.podCidr, e.addr, DEVICE)
    && !HasNeigh(t.neighs, e.addr, DEVICE)
    && !HasFdb(t.fdbs, e.mac, info.internalIp, DEVICE)
  }

  lemma GoneAfter(t: Tables, info: NodeInfo, e: Endpoint)
    ensures Gone(Less(t, info, e), info, e)
  {
  }

  lemma GoneStays(t: Tables, info: NodeInfo, e: Endpoint, other: NodeInfo, f: Endpoint)
    requires Gone(t, other, f)
    ensures Gone(Less(t, info, e), other, f)
  {
  }

  /** Deleting a node's entries under the endpoint read now clears those it was installed with exactly
      when the two endpoints are the same. */
  lemma GoneExact(t: Tables, info: NodeInfo, e: Endpoint, f: Endpoint)
    requires Installed(t, info, e) && (f.addr == "" <==> f.mac == "")
    ensures Gone(Less(t, info, f), info, e) <==> f == e
    ensures !Gone(t, info, e)
  {
  }

  lemma LessIsSameBut(t: Tables, info: NodeInfo, e: Endpoint)
    ensures SameBut(t, Less(t, info, e), info, e)
    ensures e == Endpoint("", "") ==> Less(t, info, e) == t
  {
  }

  lemma GoneSame(owners: Owners, n: Name, t: Tables, u: Tables, info: NodeInfo, e: Endpoint, m: Name, other: NodeInfo,
                 f: Endpoint)
    requires Of(owners, n, e) && Of(owners, m, f) && m != n && SameBut(t, u, info, e)
    ensures Gone(u, other, f) <==> Gone(t, other, f)
  {
    InMinus(t.routes, u.routes, RouteFor(info, e), RouteFor(other, f));
    InMinus(t.neighs, u.neighs, NeighFor(e), NeighFor(f));
    assert FdbFor(other, f) in t.fdbs <==> FdbFor(other, f) in t.fdbs - {FdbFor(info, e)};
    assert FdbFor(other, f) in u.fdbs <==> FdbFor(other, f) in u.fdbs - {FdbFor(info, e)};
  }

  /** Removing one node leaves what is there of another's entries. */
  lemma GoneOfOther(owners: Owners, n: Name, t: Tables, info: NodeInfo, e: Endpoint, m: Name, other: NodeInfo,
                    f: Endpoint)
    requires Of(owners, m, f) && m != n && (e.addr == "" <==> e.mac == "") && (e.addr != "" ==> Of(owners, n, e))
    ensures Gone(Less(t, info, e), other, f) <==> Gone(t, other, f)
  {
    hide Less, SameBut, Gone;
    LessIsSameBut(t, info, e);
    if e.addr != "" { GoneSame(owners, n, t, Less(t, info, e), info, e, m, other, f); }
  }

  /** A removed node's entries under the endpoint read now are gone; those it was installed with are,
      exactly when that is the same endpoint. */
  ghost predicate Cleared(t: Tables, kv: map<string, string>, before: Infos, at: map<Name, Endpoint>, n: Name) {
    && n in before && n in at
    && Gone(t, before[n], StoredVtep(kv, n))
    && (Gone(t, before[n], at[n]) <==> StoredVtep(kv, n) == at[n])
  }

  ghost predicate AllCleared(t: Tables, kv: map<string, string>, before: Infos, at: map<Name, Endpoint>,
                             todo: set<Name>) {
    forall n <- before :: n !in todo ==> Cleared(t, kv, before, at, n)
  }

  // ---------------------------------------------------------------- neighbours and blocked routes

  /** The neighbour of an endpoint has another MAC. */
  ghost predicate Stale(t: Tables, e: Endpoint) {
    NeighFor(e) in t.neighs && t.neighs[NeighFor(e)] != e.mac
  }

  /** The neighbour of an endpoint has its MAC. */
  ghost predicate Resolves(t: Tables, e: Endpoint) {
    NeighFor(e) in t.neighs && t.neighs[NeighFor(e)] == e.mac
  }

  /** The MAC has another underlay address. */
  ghost predicate FdbBlocked(t: Tables, info: NodeInfo, e: Endpoint) {
    FdbTaken(t.fdbs, e.mac, DEVICE) && FdbFor(info, e) !in t.fdbs
  }

  /** The node's route is there on another device, or its MAC with another underlay address. */
  ghost predicate Blocked(t: Tables, info: NodeInfo, e: Endpoint) {
    || (RouteFor(info, e) in t.routes && t.routes[RouteFor(info, e)] != DEVICE)
    || FdbBlocked(t, info, e)
  }

  /** What belongs to no node of `names` is as stale and as blocked as it was. */
  lemma OutsideKeeps(owners: Owners, names: set<Name>, t: Tables, u: Tables, n: Name, e: Endpoint, info: NodeInfo)
    requires OutsideSame(owners, names, t, u) && Of(owners, n, e) && n !in names
    ensures Stale(u, e) <==> Stale(t, e)
    ensures Blocked(u, info, e) <==> Blocked(t, info, e)
  {
  }

  lemma InstalledResolves(t: Tables, info: NodeInfo, e: Endpoint)
    requires Installed(t, info, e)
    ensures Resolves(t, e) <==> !Stale(t, e)
  {
  }

  lemma EnsuredInstalls(t: Tables, info: NodeInfo, e: Endpoint)
    requires info.internalIp != "" && e.addr != "" && e.mac != ""
    ensures var u := Ensured(t, info, e);
            && Installed(u, info, e) && SameBut(t, u, info, e)
            && (Resolves(u, e) <==> !Stale(t, e)) && (Stale(u, e) <==> Stale(t, e))
            && (Missing(t, info, e) ==> u == With(t, info, e))
  {
  }

  /** Which nodes of the cluster a failure-free tick caches anew. */
  ghost predicate Joins(t: Tables, kv: map<string, string>, current: Name, cluster: Infos, n: Name) {
    n in cluster && n != current && StoredVtep(kv, n).addr != "" && !Blocked(t, cluster[n], StoredVtep(kv, n))
  }

  /** The neighbours of cached nodes are as stale as they were. */
  ghost predicate StaleKept(t: Tables, u: Tables, cache: Infos, at: map<Name, Endpoint>) {
    forall n <- cache :: n in at && (Stale(u, at[n]) <==> Stale(t, at[n]))
  }

  /** A cached node's neighbour has its MAC exactly if no neighbour with another one was there. */
  ghost predicate AllResolve(t: Tables, u: Tables, cache: Infos, at: map<Name, Endpoint>) {
    forall n <- cache :: n in at && (Resolves(u, at[n]) <==> !Stale(t, at[n]))
  }

  /** Whatever is cached was cached before or is cached anew. */
  ghost predicate Explained(kv: map<string, string>, current: Name, cluster: Infos, before: Infos,
                            atBefore: map<Name, Endpoint>, cache: Infos, at: map<Name, Endpoint>) {
    forall n <- cache :: Same(n, before, atBefore, cache, at) || Anew(kv, current, cluster, cache, at, n)
  }

  /** Cached nodes stay as long as their VTEP and this node's are stored. */
  ghost predicate Staying(kv: map<string, string>, current: Name, before: Infos, cache: Infos) {
    && (forall n <- cache :: StoredVtep(kv, current).addr != "" && StoredVtep(kv, n).addr != "")
    && (StoredVtep(kv, current).addr != "" ==> forall n <- before :: n in cache <==> StoredVtep(kv, n).addr != "")
  }

  /** The cache holds exactly the nodes it should, old and new. */
  ghost predicate Settled(t: Tables, kv: map<string, string>, current: Name, cluster: Infos, before: Infos,
                          cache: Infos) {
    forall n: Name :: n in cache <==>
      StoredVtep(kv, n).addr != "" && (n in before || Joins(t, kv, current, cluster, n))
  }

  /** A node that leaves takes its entries with it exactly when this node's VTEP is gone and its own
      is still the one it was installed with. */
  ghost predicate LeavesExactly(t: Tables, kv: map<string, string>, current: Name, before: Infos,
                                at: map<Name, Endpoint>, n: Name) {
    && n in before && n in at
    && (Gone(t, before[n], at[n]) <==> StoredVtep(kv, current).addr == "" && StoredVtep(kv, n) == at[n])
  }

  ghost predicate StillThere(t: Tables, cache: Infos, at: map<Name, Endpoint>) {
    forall n <- cache :: n in at && Installed(t, cache[n], at[n])
  }

  /** No entry made with an endpoint that can still be read is there. */
  ghost predicate NoneReadable(t: Tables, kv: map<string, string>, cache: Infos) {
    forall n <- cache :: Gone(t, cache[n], StoredVtep(kv, n))
  }

  // ---------------------------------------------------------------- where entries come from

  /** A node's data and the endpoint it was installed with. */
  type Held = (NodeInfo, Endpoint)

  ghost function HeldBy(cache: Infos, at: map<Name, Endpoint>): set<Held> {
    set n | n in cache && n in at :: (cache[n], at[n])
  }

  /** Nothing was added or changed. */
  ghost predicate Within(t: Tables, u: Tables) {
    && (forall k <- u.routes :: k in t.routes && u.routes[k] == t.routes[k])
    && (forall k <- u.neighs :: k in t.neighs && u.neighs[k] == t.neighs[k])
    && u.fdbs <= t.fdbs
  }

  /** Every entry was there before or is one of a node of `held`. */
  ghost predicate Accounts(t: Tables, u: Tables, held: set<Held>) {
    && (forall k <- u.routes :: (k in t.routes && u.routes[k] == t.routes[k]) || IsRoute(held, k, u.routes[k]))
    && (forall k <- u.neighs :: (k in t.neighs && u.neighs[k] == t.neighs[k]) || IsNeigh(held, k))
    && (forall f <- u.fdbs :: f in t.fdbs || IsFdb(held, f))
  }

  ghost predicate IsRoute(held: set<Held>, k: RouteKey, dev: string) {
    dev == DEVICE && exists x <- held :: RouteFor(x.0, x.1) == k
  }

  ghost predicate IsNeigh(held: set<Held>, k: NeighKey) {
    exists x <- held :: NeighFor(x.1) == k
  }

  ghost predicate IsFdb(held: set<Held>, f: FdbEntry) {
    exists x <- held :: FdbFor(x.0, x.1) == f
  }

  lemma WithinSame(t: Tables)
    ensures Within(t, t)
  {
  }

  lemma RolledBack(t: Tables, u: Tables, v: Tables, info: NodeInfo, e: Endpoint)
    requires u.routes == t.routes[RouteFor(info, e) := DEVICE] && v.routes == u.routes - {RouteFor(info, e)}
    requires (u.neighs == t.neighs && v.neighs == t.neighs) || v.neighs == u.neighs - {NeighFor(e)}
    requires u.neighs == t.neighs || u.neighs == t.neighs[NeighFor(e) := e.mac]
    requires v.fdbs == t.fdbs
    ensures Within(t, v)
  {
    hide RouteFor, NeighFor;
  }

  lemma WithinTrans(t: Tables, u: Tables, v: Tables)
    requires Within(t, u) && Within(u, v)
    ensures Within(t, v)
  {
  }

  lemma HeldAt(cache: Infos, at: map<Name, Endpoint>, n: Name)
    requires n in cache && n in at
    ensures (cache[n], at[n]) in HeldBy(cache, at)
  {
  }

  lemma HeldMore(cache: Infos, at: map<Name, Endpoint>, n: Name, info: NodeInfo, e: Endpoint)
    requires n !in cache
    ensures HeldBy(cache, at) <= HeldBy(cache[n := info], at[n := e])
  {
    var more, atMore := cache[n := info], at[n := e];
    forall m | m in cache && m in at ensures (cache[m], at[m]) in HeldBy(more, atMore) { HeldAt(more, atMore, m); }
  }

  lemma WithinAccounts(t: Tables, u: Tables, held: set<Held>)
    requires Within(t, u)
    ensures Accounts(t, u, held)
  {
  }

  lemma EnsuredAccounts(t: Tables, info: NodeInfo, e: Endpoint, held: set<Held>)
    requires (info, e) in held
    ensures Accounts(t, Ensured(t, info, e), held)
  {
  }

  lemma AccountsTrans(t: Tables, u: Tables, v: Tables, a: set<Held>, b: set<Held>, c: set<Held>)
    requires Accounts(t, u, a) && Accounts(u, v, b) && a <= c && b <= c
    ensures Accounts(t, v, c)
  {
    hide RouteFor, NeighFor, FdbFor;
    IsMore(a, c);
    IsMore(b, c);
  }

  lemma IsMore(a: set<Held>, c: set<Held>)
    requires a <= c
    ensures forall k: RouteKey, dev: string :: IsRoute(a, k, dev) ==> IsRoute(c, k, dev)
    ensures forall k: NeighKey :: IsNeigh(a, k) ==> IsNeigh(c, k)
    ensures forall f: FdbEntry :: IsFdb(a, f) ==> IsFdb(c, f)
  {
    hide RouteFor, NeighFor, FdbFor;
  }

  /** A node none of whose entries is there accounts for nothing. */
  lemma GoneAccounts(t: Tables, u: Tables, held: set<Held>, kept: set<Held>)
    requires Accounts(t, u, held) && kept <= held
    requires forall x <- held - kept :: Gone(u, x.0, x.1) && x.0.internalIp != "" && x.1.addr != "" && x.1.mac != ""
    ensures Accounts(t, u, kept)
  {
    forall k <- u.routes | IsRoute(held, k, u.routes[k]) ensures IsRoute(kept, k, u.routes[k]) {
      var x :| x in held && RouteFor(x.0, x.1) == k;
      assert x in kept;
    }
    forall k <- u.neighs | IsNeigh(held, k) ensures IsNeigh(kept, k) {
      var x :| x in held && NeighFor(x.1) == k;
      assert x in kept;
    }
    forall f <- u.fdbs | IsFdb(held, f) ensures IsFdb(kept, f) {
      var x :| x in held && FdbFor(x.0, x.1) == f;
      assert x in kept;
    }
  }

  // ---------------------------------------------------------------- the cache

  ghost predicate Same(n: Name, before: Infos, atBefore: map<Name, Endpoint>, cache: Infos, at: map<Name, Endpoint>) {
    n in cache && n in before && n in at && n in atBefore && cache[n] == before[n] && at[n] == atBefore[n]
  }

  /** A node cached anew, with what the cluster says and the endpoint the store has. */
  ghost predicate Anew(kv: map<string, string>, current: Name, cluster: Infos, cache: Infos, at: map<Name, Endpoint>,
                       n: Name) {
    n in cache && n in at && n in cluster && n != current && cache[n] == cluster[n] && at[n] == StoredVtep(kv, n)
  }

  /** The cache after considering nodes of the cluster. */
  ghost predicate Grown(kv: map<string, string>, current: Name, cluster: Infos, before: Infos,
                        atBefore: map<Name, Endpoint>, cache: Infos, at: map<Name, Endpoint>) {
    && (forall n <- before :: Same(n, before, atBefore, cache, at))
    && (forall n <- cache :: n in before || Anew(kv, current, cluster, cache, at, n))
  }

  /** The cache after reconsidering cached nodes. */
  ghost predicate Shrunk(before: Infos, atBefore: map<Name, Endpoint>, cache: Infos, at: map<Name, Endpoint>) {
    forall n <- cache :: Same(n, before, atBefore, cache, at)
  }

  /** Exactly the nodes that should be have been cached among `done`. */
  ghost predicate Joined(t: Tables, kv: map<string, string>, current: Name, cluster: Infos, before: Infos, cache: Infos,
                         done: set<Name>) {
    forall n: Name :: n in cache <==> n in before || (n in done && Joins(t, kv, current, cluster, n))
  }

  ghost predicate Remaining(kv: map<string, string>, gone: bool, before: Infos, cache: Infos, todo: set<Name>) {
    forall n: Name :: n in cache <==> n in before && (n in todo || (!gone && StoredVtep(kv, n).addr != ""))
  }

  /** Every cached node has its three entries, made with the endpoint `at` remembers for it. */
  ghost predicate AllInstalled(owners: Owners, t: Tables, cache: Infos, at: map<Name, Endpoint>) {
    && cache.Keys == at.Keys
    && forall n <- cache :: cache[n].internalIp != "" && Of(owners, n, at[n]) && Installed(t, cache[n], at[n])
  }

  lemma StillInstalled(owners: Owners, t: Tables, cache: Infos, at: map<Name, Endpoint>)
    requires AllInstalled(owners, t, cache, at)
    ensures forall n <- cache :: n in at && Installed(t, cache[n], at[n]) && !Gone(t, cache[n], at[n])
  {
  }

  lemma AllOthersInstalled(owners: Owners, t: Tables, u: Tables, cache: Infos, at: map<Name, Endpoint>, n: Name,
                           info: NodeInfo, e: Endpoint)
    requires AllInstalled(owners, t, cache, at) && Of(owners, n, e) && SameBut(t, u, info, e)
    ensures forall m <- cache :: m != n ==> m in at && Installed(u, cache[m], at[m])
  {
    hide Installed, SameBut, Of;
    forall m <- cache | m != n
      ensures m in at && Installed(u, cache[m], at[m])
    {
      OtherInstalled(owners, n, t, u, info, e, m, cache[m], at[m]);
    }
  }

  lemma StoredOwned(owners: Owners, kv: map<string, string>, n: Name)
    requires VtepsDecode(kv) && EndpointsOwned(owners, kv)
    ensures var e := StoredVtep(kv, n); (e.addr == "" <==> e.mac == "") && (e.addr != "" ==> Of(owners, n, e))
  {
    hide Of, DecodeVtep, Read, KeyText;
  }

  lemma InstalledAt(owners: Owners, t: Tables, cache: Infos, at: map<Name, Endpoint>, n: Name)
    requires AllInstalled(owners, t, cache, at) && n in cache
    ensures n in at && Of(owners, n, at[n]) && Installed(t, cache[n], at[n])
  {
  }

  /** Removing one more node clears it, and leaves the others as cleared as they are. */
  lemma ClearedStep(owners: Owners, kv: map<string, string>, t: Tables, before: Infos, at: map<Name, Endpoint>,
                    mid: Infos, atMid: map<Name, Endpoint>, todo: set<Name>, name: Name, u: Tables)
    requires VtepsDecode(kv) && EndpointsOwned(owners, kv) && AllInstalled(owners, t, before, at)
    requires AllInstalled(owners, u, mid, atMid)
    requires name in mid && Shrunk(before, at, mid, atMid) && AllCleared(u, kv, before, at, todo)
    ensures AllCleared(Less(u, mid[name], StoredVtep(kv, name)), kv, before, at, todo - {name})
  {
    hide Installed, Of, Less, Gone, StoredVtep, VtepsDecode, EndpointsOwned, AllInstalled;
    var f := StoredVtep(kv, name);
    InstalledAt(owners, u, mid, atMid, name);
    StoredOwned(owners, kv, name);
    GoneExact(u, before[name], at[name], f);
    GoneAfter(u, before[name], f);
    forall n <- before | n != name && Cleared(u, kv, before, at, n)
      ensures Cleared(Less(u, mid[name], f), kv, before, at, n)
    {
      InstalledAt(owners, t, before, at, n);
      GoneOfOther(owners, name, u, before[name], f, n, before[n], at[n]);
      GoneStays(u, before[name], f, before[n], StoredVtep(kv, n));
    }
  }

  /** An edit of one node's entries leaves the neighbours of the other cached nodes. */
  lemma StaleElsewhere(owners: Owners, name: Name, t: Tables, u: Tables, cache: Infos, at: map<Name, Endpoint>)
    requires OutsideSame(owners, {name}, t, u) && AllInstalled(owners, t, cache, at)
    ensures forall n <- cache :: n != name ==> n in at && (Stale(u, at[n]) <==> Stale(t, at[n]))
  {
    hide OutsideSame, Stale, Blocked, Of, Installed;
    forall n <- cache | n != name
      ensures n in at && (Stale(u, at[n]) <==> Stale(t, at[n]))
    {
      OutsideKeeps(owners, {name}, t, u, n, at[n], cache[n]);
    }
  }

  lemma GrownNone(owners: Owners, t: Tables, kv: map<string, string>, current: Name, cluster: Infos, cache: Infos,
                  at: map<Name, Endpoint>)
    requires AllInstalled(owners, t, cache, at)
    ensures Grown(kv, current, cluster, cache, at, cache, at) && StaleKept(t, t, cache, at)
    ensures Joined(t, kv, current, cluster, cache, cache, {})
  {
    hide Installed, Of, Stale, Joins;
  }

  lemma GrownMore(kv: map<string, string>, current: Name, cluster: Infos, before: Infos, atBefore: map<Name, Endpoint>,
                  cache: Infos, at: map<Name, Endpoint>, n: Name)
    requires Grown(kv, current, cluster, before, atBefore, cache, at) && n !in cache && n in cluster && n != current
    ensures Grown(kv, current, cluster, before, atBefore, cache[n := cluster[n]], at[n := StoredVtep(kv, n)])
  {
    hide StoredVtep;
    var more, atMore := cache[n := cluster[n]], at[n := StoredVtep(kv, n)];
    forall m <- before ensures Same(m, before, atBefore, more, atMore) { assert Same(m, before, atBefore, cache, at); }
    forall m <- more ensures m in before || Anew(kv, current, cluster, more, atMore, m) {
      assert m == n || m in before || Anew(kv, current, cluster, cache, at, m);
    }
  }

  lemma StaleStays(owners: Owners, name: Name, t: Tables, u: Tables, v: Tables, cache: Infos, at: map<Name, Endpoint>)
    requires OutsideSame(owners, {name}, u, v) && AllInstalled(owners, u, cache, at) && StaleKept(t, u, cache, at)
    requires name in cache ==> v == u
    ensures StaleKept(t, v, cache, at)
  {
    hide OutsideSame, AllInstalled, Stale;
    StaleElsewhere(owners, name, u, v, cache, at);
  }

  lemma StaleMore(owners: Owners, done: set<Name>, name: Name, t: Tables, u: Tables, v: Tables, cache: Infos,
                  at: map<Name, Endpoint>, info: NodeInfo, e: Endpoint)
    requires OutsideSame(owners, done, t, u) && OutsideSame(owners, {name}, u, v) && name !in done && name !in cache
    requires AllInstalled(owners, u, cache, at) && AllInstalled(owners, v, cache[name := info], at[name := e])
    requires StaleKept(t, u, cache, at) && (Stale(v, e) <==> Stale(u, e))
    ensures StaleKept(t, v, cache[name := info], at[name := e])
  {
    hide OutsideSame, AllInstalled, Stale, Blocked, Of;
    StaleElsewhere(owners, name, u, v, cache, at);
    InstalledAt(owners, v, cache[name := info], at[name := e], name);
    OutsideKeeps(owners, done, t, u, name, e, info);
  }

  lemma JoinedMore(owners: Owners, t: Tables, u: Tables, kv: map<string, string>, current: Name, cluster: Infos,
                   before: Infos, mid: Infos, cache: Infos, done: set<Name>, name: Name)
    requires VtepsDecode(kv) && EndpointsOwned(owners, kv) && OutsideSame(owners, done, t, u)
    requires name !in done && name in cluster
    requires Joined(t, kv, current, cluster, before, mid, done)
    requires cache == mid || (name in cache && cache == mid[name := cache[name]])
    requires var e := StoredVtep(kv, name);
             name in cache <==> name in mid || (name != current && e.addr != "" && !Blocked(u, cluster[name], e))
    ensures Joined(t, kv, current, cluster, before, cache, done + {name})
  {
    hide OutsideSame, VtepsDecode, EndpointsOwned, StoredVtep, Blocked, Stale, Of;
    StoredOwned(owners, kv, name);
    var e := StoredVtep(kv, name);
    if e.addr != "" { OutsideKeeps(owners, done, t, u, name, e, cluster[name]); }
  }

  lemma ShrunkNone(owners: Owners, t: Tables, kv: map<string, string>, gone: bool, cache: Infos,
                   at: map<Name, Endpoint>)
    requires AllInstalled(owners, t, cache, at)
    ensures Shrunk(cache, at, cache, at) && StaleKept(t, t, cache, at) && Remaining(kv, gone, cache, cache, cache.Keys)
    ensures AllCleared(t, kv, cache, at, cache.Keys)
  {
    hide Installed, Of, Stale, StoredVtep;
  }

  lemma ShrunkMore(owners: Owners, name: Name, t: Tables, u: Tables, v: Tables, before: Infos,
                   atBefore: map<Name, Endpoint>, mid: Infos, atMid: map<Name, Endpoint>, cache: Infos,
                   at: map<Name, Endpoint>)
    requires AllInstalled(owners, u, mid, atMid) && Shrunk(before, atBefore, mid, atMid) && StaleKept(t, u, mid, atMid)
    requires OutsideSame(owners, {name}, u, v)
    requires (cache == mid && at == atMid && v == u) || (cache == mid - {name} && at == atMid - {name})
    ensures Shrunk(before, atBefore, cache, at) && StaleKept(t, v, cache, at)
  {
    hide OutsideSame, AllInstalled, Stale;
    StaleElsewhere(owners, name, u, v, mid, atMid);
    forall n <- cache ensures Same(n, before, atBefore, cache, at) { assert Same(n, before, atBefore, mid, atMid); }
  }

  lemma RemainingMore(kv: map<string, string>, gone: bool, before: Infos, mid: Infos, cache: Infos, todo: set<Name>,
                      name: Name)
    requires Remaining(kv, gone, before, mid, todo) && name in todo
    requires cache == if gone || StoredVtep(kv, name).addr == "" then mid - {name} else mid
    ensures Remaining(kv, gone, before, cache, todo - {name})
  {
    hide StoredVtep;
  }

  lemma KeptResolve(owners: Owners, t: Tables, u: Tables, cache: Infos, at: map<Name, Endpoint>)
    requires AllInstalled(owners, u, cache, at) && StaleKept(t, u, cache, at)
    ensures AllResolve(t, u, cache, at)
  {
    hide Installed, Of, Resolves, Stale;
    forall n <- cache
      ensures n in at && (Resolves(u, at[n]) <==> !Stale(t, at[n]))
    {
      InstalledResolves(u, cache[n], at[n]);
    }
  }

  /** What was as stale as before at each of two stages. */
  lemma StaleTrans(t: Tables, u: Tables, v: Tables, mid: Infos, atMid: map<Name, Endpoint>, cache: Infos,
                   at: map<Name, Endpoint>)
    requires StaleKept(t, u, mid, atMid) && StaleKept(u, v, cache, at) && Shrunk(mid, atMid, cache, at)
    ensures StaleKept(t, v, cache, at)
  {
    hide Stale;
    forall n <- cache
      ensures n in at && (Stale(v, at[n]) <==> Stale(t, at[n]))
    {
      assert Same(n, mid, atMid, cache, at);
    }
  }

  // ---------------------------------------------------------------- what the two loops amount to

  lemma DecodesAt(kv: map<string, string>, n: Name)
    requires VtepsDecode(kv)
    ensures DecodeVtep(Read(kv, KeyText(Vtep(n)))) == Some((StoredVtep(kv, n).addr, StoredVtep(kv, n).mac))
  {
    hide DecodeVtep, Read, KeyText;
    assert StoredVtep(kv, n) == StoredVtep(kv, n);
  }

  lemma GrownNames(kv: map<string, string>, current: Name, cluster: Infos, before: Infos, atBefore: map<Name, Endpoint>,
                   mid: Infos, atMid: map<Name, Endpoint>)
    requires Grown(kv, current, cluster, before, atBefore, mid, atMid)
    ensures mid.Keys <= cluster.Keys + before.Keys
  {
    hide StoredVtep;
  }

  lemma TickExplained(kv: map<string, string>, current: Name, cluster: Infos, before: Infos,
                      atBefore: map<Name, Endpoint>, mid: Infos, atMid: map<Name, Endpoint>, cache: Infos,
                      at: map<Name, Endpoint>)
    requires Grown(kv, current, cluster, before, atBefore, mid, atMid)
    requires Shrunk(mid, atMid, cache, at) && current !in before
    ensures Explained(kv, current, cluster, before, atBefore, cache, at) && current !in cache
  {
    hide StoredVtep;
    forall n <- cache
      ensures Same(n, before, atBefore, cache, at) || Anew(kv, current, cluster, cache, at, n)
    {
      assert Same(n, mid, atMid, cache, at);
      if n in before { assert Same(n, before, atBefore, mid, atMid); }
    }
  }

  /** This node's VTEP is stored: nothing is deleted. */
  lemma TickStays(owners: Owners, kv: map<string, string>, current: Name, cluster: Infos, u: Tables, before: Infos,
                  atBefore: map<Name, Endpoint>, mid: Infos, atMid: map<Name, Endpoint>, cache: Infos)
    requires Grown(kv, current, cluster, before, atBefore, mid, atMid) && Remaining(kv, false, mid, cache, {})
    requires AllInstalled(owners, u, mid, atMid) && StoredVtep(kv, current).addr != ""
    ensures Staying(kv, current, before, cache) && StillThere(u, before, atBefore)
    ensures forall n <- before :: LeavesExactly(u, kv, current, before, atBefore, n)
  {
    hide StoredVtep, Installed, Gone, Of;
    StillInstalled(owners, u, mid, atMid);
    forall n <- before
      ensures n in atBefore && Installed(u, before[n], atBefore[n]) && !Gone(u, before[n], atBefore[n])
    {
      assert Same(n, before, atBefore, mid, atMid);
    }
  }

  lemma TickSettles(t: Tables, kv: map<string, string>, current: Name, cluster: Infos, before: Infos, mid: Infos,
                    cache: Infos)
    requires Joined(t, kv, current, cluster, before, mid, cluster.Keys) && Remaining(kv, false, mid, cache, {})
    ensures Settled(t, kv, current, cluster, before, cache)
  {
    hide StoredVtep, Blocked;
  }

  /** This node's VTEP is gone: the cache is emptied. */
  lemma TickEmpties(kv: map<string, string>, current: Name, before: Infos, cache: Infos)
    requires Remaining(kv, true, before, cache, {}) && StoredVtep(kv, current).addr == ""
    ensures cache == map[] && Staying(kv, current, before, cache)
  {
    hide StoredVtep;
    assert cache.Keys == {};
  }

  lemma TickClears(t: Tables, kv: map<string, string>, current: Name, before: Infos, at: map<Name, Endpoint>)
    requires AllCleared(t, kv, before, at, {}) && StoredVtep(kv, current).addr == ""
    ensures NoneReadable(t, kv, before)
    ensures forall n <- before :: LeavesExactly(t, kv, current, before, at, n)
  {
    hide StoredVtep, Gone;
    forall n <- before ensures Cleared(t, kv, before, at, n) {}
  }

  /** What the first loop caches stays cached, and what it found was cached before. */
  lemma HeldStays(owners: Owners, u: Tables, kv: map<string, string>, current: Name, cluster: Infos, before: Infos,
                  atBefore: map<Name, Endpoint>, mid: Infos, atMid: map<Name, Endpoint>, gone: bool, cache: Infos,
                  at: map<Name, Endpoint>)
    requires AllInstalled(owners, u, mid, atMid) && Grown(kv, current, cluster, before, atBefore, mid, atMid)
    requires Remaining(kv, gone, mid, cache, {}) && Shrunk(mid, atMid, cache, at)
    requires gone ==> mid == before && atMid == atBefore
    ensures HeldBy(mid, atMid) <= HeldBy(before, atBefore) + HeldBy(cache, at)
  {
    hide Installed, StoredVtep;
    if !gone {
      forall n | n in mid && n in atMid
        ensures (mid[n], atMid[n]) in HeldBy(before, atBefore) + HeldBy(cache, at)
      {
        if n in before {
          assert Same(n, before, atBefore, mid, atMid);
          HeldAt(before, atBefore, n);
        } else {
          assert Anew(kv, current, cluster, mid, atMid, n) && Of(owners, n, atMid[n]);
          assert Same(n, mid, atMid, cache, at);
          HeldAt(cache, at, n);
        }
      }
    }
  }

  // ---------------------------------------------------------------- spelled out

  /** A stored endpoint, spelled out: the value under the node's key is its address, a dash and its
      MAC. */
  lemma VtepSpelled(kv: map<string, string>, n: Name)
    requires VtepsDecode(kv)
    ensures var e, text := StoredVtep(kv, n), Read(kv, "/ohno/node/" + n + "/vtep");
            if text == "" then e == Endpoint("", "")
            else Tokens(text, '-') == [e.addr, e.mac] && (e.addr != "" <==> e.mac != "")
  {
    hide Read, KeyText, Tokens, StoredVtep;
    KeySpelling(Vtep(n));
    DecodesAt(kv, n);
    var text := Read(kv, KeyText(Vtep(n)));
    assert StoredVtep(kv, n).addr != "" <==> StoredVtep(kv, n).mac != "";
    NoTokens(text);
  }

  lemma {:induction false} NoTokens(s: string)
    ensures Tokens(s, '-') == [] <==> s == ""
  {
  }

  /** Every cached node is reached: its podCIDR is routed via the endpoint's address on the VXLAN
      device, which has the neighbour and the destination of its MAC. */
  ghost predicate AllReached(t: Tables, cache: Infos, at: map<Name, Endpoint>) {
    forall n <- cache ::
      && n in at
      && HasRoute(t.routes, cache[n].podCidr, at[n].addr, "ohnov")
      && HasNeigh(t.neighs, at[n].addr, "ohnov")
      && HasFdb(t.fdbs, at[n].mac, cache[n].internalIp, "ohnov")
  }

  /** A node cached anew is the cluster's, with the address and the MAC the store has for it. */
  ghost predicate AllAsStored(kv: map<string, string>, cluster: Infos, before: Infos, cache: Infos,
                              at: map<Name, Endpoint>) {
    forall n <- cache | n !in before ::
      && n in cluster && cache[n] == cluster[n] && n in at
      && Tokens(Read(kv, "/ohno/node/" + n + "/vtep"), '-') == [at[n].addr, at[n].mac]
  }

  /** What the store says of a node leads to no entry. */
  ghost predicate NoneReached(t: Tables, kv: map<string, string>, cache: Infos) {
    forall n <- cache, addr: string, mac: string |
      Tokens(Read(kv, "/ohno/node/" + n + "/vtep"), '-') == [addr, mac] ::
      && !HasRoute(t.routes, cache[n].podCidr, addr, "ohnov")
      && !HasNeigh(t.neighs, addr, "ohnov")
      && !HasFdb(t.fdbs, mac, cache[n].internalIp, "ohnov")
  }

  /** The text stored for a node has an address. */
  ghost predicate VtepThere(kv: map<string, string>, n: Name) {
    var fields := Tokens(Read(kv, "/ohno/node/" + n + "/vtep"), '-');
    |fields| == 2 && fields[0] != ""
  }

  lemma VtepThereIs(kv: map<string, string>, n: Name)
    requires VtepsDecode(kv)
    ensures VtepThere(kv, n) <==> StoredVtep(kv, n).addr != ""
  {
    hide StoredVtep, VtepsDecode, Read, Tokens;
    VtepSpelled(kv, n);
    NoTokens(Read(kv, "/ohno/node/" + n + "/vtep"));
    var fields := Tokens(Read(kv, "/ohno/node/" + n + "/vtep"), '-');
    var e := StoredVtep(kv, n);
    if fields == [e.addr, e.mac] { assert fields[0] == e.addr; }
  }

  /** Without failures the cache holds the nodes with a stored endpoint, while this one has one, that
      were cached before or that the cluster has and nothing blocks. */
  ghost predicate CachedAsStored(t: Tables, kv: map<string, string>, current: Name, cluster: Infos, before: Infos,
                                 cache: Infos) {
    forall n: Name :: n in cache <==>
      && VtepThere(kv, current) && VtepThere(kv, n)
      && (n in before || (n in cluster && n != current && !Blocked(t, cluster[n], StoredVtep(kv, n))))
  }

  lemma SettledAsStored(t: Tables, kv: map<string, string>, current: Name, cluster: Infos, before: Infos, cache: Infos)
    requires VtepsDecode(kv)
    requires if StoredVtep(kv, current).addr == "" then cache == map[]
      else Settled(t, kv, current, cluster, before, cache)
    ensures CachedAsStored(t, kv, current, cluster, before, cache)
  {
    hide StoredVtep, VtepsDecode, VtepThere, Blocked;
    VtepThereIs(kv, current);
    forall n: Name ensures VtepThere(kv, n) <==> StoredVtep(kv, n).addr != "" { VtepThereIs(kv, n); }
  }

  lemma InstalledReached(owners: Owners, t: Tables, cache: Infos, at: map<Name, Endpoint>)
    requires AllInstalled(owners, t, cache, at)
    ensures AllReached(t, cache, at)
  {
    hide HasRoute, HasNeigh, HasFdb;
  }

  lemma ExplainedStored(owners: Owners, kv: map<string, string>, t: Tables, current: Name, cluster: Infos,
                        before: Infos, atBefore: map<Name, Endpoint>, cache: Infos, at: map<Name, Endpoint>)
    requires VtepsDecode(kv) && AllInstalled(owners, t, cache, at)
    requires Explained(kv, current, cluster, before, atBefore, cache, at)
    ensures AllAsStored(kv, cluster, before, cache, at)
  {
    hide StoredVtep, VtepsDecode, Read, Tokens, HasRoute, HasFdb;
    forall n <- cache | n !in before
      ensures n in cluster && cache[n] == cluster[n] && n in at
      ensures Tokens(Read(kv, "/ohno/node/" + n + "/vtep"), '-') == [at[n].addr, at[n].mac]
    {
      assert Anew(kv, current, cluster, cache, at, n) && Installed(t, cache[n], at[n]);
      VtepSpelled(kv, n);
    }
  }

  lemma UnreadableReached(t: Tables, kv: map<string, string>, cache: Infos)
    requires VtepsDecode(kv) && NoneReadable(t, kv, cache)
    ensures NoneReached(t, kv, cache)
  {
    hide StoredVtep, VtepsDecode, Read, Tokens, HasRoute, HasFdb, HasNeigh;
    forall n <- cache, addr: string, mac: string |
      Tokens(Read(kv, "/ohno/node/" + n + "/vtep"), '-') == [addr, mac]
      ensures StoredVtep(kv, n) == Endpoint(addr, mac)
    {
      VtepSpelled(kv, n);
      NoTokens(Read(kv, "/ohno/node/" + n + "/vtep"));
      assert [addr, mac][0] == addr && [addr, mac][1] == mac;
    }
  }

  class Vxlan {
    const storage: Storage
    const nic: Nic
    var cache: Infos
    /** The endpoint each cached node was installed with; the code does not keep it. */
    ghost var at: map<Name, Endpoint>

    constructor (storage: Storage, nic: Nic)
      ensures this.storage == storage && this.nic == nic && cache == map[] && at == map[]
    {
      this.storage, this.nic, cache := storage, nic, map[];
      at := map[];
    }

    ghost function Now(): Tables
      reads nic.kernel
    {
      Tables(nic.kernel.routes, nic.kernel.neighs, nic.kernel.fdbs)
    }

    /** A node that is persisted and not cached: its three entries are added one after the other, and
        taken back when a later one fails. The rollback of the route names no device. A neighbour that
        was there keeps its MAC, so the MAC is the endpoint's exactly if none was stale. */
    method AddNode(name: Name, info: NodeInfo, e: Endpoint) returns (ok: bool)
      requires name !in cache && info.internalIp != "" && e.addr != "" && e.mac != ""
      modifies this`cache, nic`routes, nic`neighs, nic`fdbs, nic.kernel`routes, nic.kernel`neighs, nic.kernel`fdbs
      ensures cache == if ok then old(cache)[name := info] else old(cache)
      ensures ok ==> Now() == Ensured(old(Now()), info, e) && Installed(Now(), info, e)
      ensures ok ==>
        && HasRoute(nic.kernel.routes, info.podCidr, e.addr, "ohnov")
        && HasNeigh(nic.kernel.neighs, e.addr, "ohnov")
        && HasFdb(nic.kernel.fdbs, e.mac, info.internalIp, "ohnov")
        && (NeighKey(e.addr, "ohnov") !in old(nic.kernel.neighs) ==>
            NeighKey(e.addr, "ohnov") in nic.kernel.neighs && nic.kernel.neighs[NeighKey(e.addr, "ohnov")] == e.mac)
      ensures ok ==> (Resolves(Now(), e) <==> !Stale(old(Now()), e)) && (Stale(Now(), e) <==> Stale(old(Now()), e))
      ensures SameBut(old(Now()), Now(), info, e)
      ensures nic.kernel.addsSucceed ==> (ok <==> !Blocked(old(Now()), info, e))
      ensures nic.kernel.addsSucceed ==>
        (ok <==>
         && (KeyOf(info.podCidr, e.addr) in old(nic.kernel.routes) ==>
             old(nic.kernel.routes)[KeyOf(info.podCidr, e.addr)] == "ohnov")
         && (FdbTaken(old(nic.kernel.fdbs), e.mac, "ohnov") ==>
             FdbEntry(e.mac, info.internalIp, "ohnov") in old(nic.kernel.fdbs)))
      ensures !ok && nic.kernel.delsSucceed ==> Within(old(Now()), Now())
      // The rollback deletes the route but not its record, which it looks for under no device.
      ensures ok ==> nic.routes == old(nic.routes) + [Recording(info, e)]
      ensures !ok ==>
        || nic.routes == old(nic.routes)
        || (Recording(info, e) in nic.routes && (nic.kernel.delsSucceed ==> !nic.RoutesRecorded()))
      ensures Missing(old(Now()), info, e) ==>
        && (ok ==> Now() == With(old(Now()), info, e))
        && (!ok && nic.kernel.delsSucceed ==> Now() == old(Now()))
        && (nic.kernel.addsSucceed ==> ok)
    {
      hide HasRoute, HasNeigh, HasFdb, KeyOf, Resolves, Stale, With;
      ghost var t := Now();
      HasEntries(t, info, e);
      EnsuredInstalls(t, info, e);
      ok := nic.AddRoute(Recording(info, e));
      if !ok { return; }
      ghost var u := Now();
      HasEntries(u, info, e);
      ok := AddRest(info, e, t, u);
      if ok { cache := cache[name := info]; }
    }

    /** The neighbour and the FDB entry, or the rollback. */
    method AddRest(info: NodeInfo, e: Endpoint, ghost t: Tables, ghost u: Tables) returns (ok: bool)
      requires info.internalIp != "" && e.addr != "" && e.mac != "" && u == Now()
      requires u.routes == t.routes[RouteFor(info, e) := DEVICE] && u.neighs == t.neighs && u.fdbs == t.fdbs
      modifies nic`routes, nic`neighs, nic`fdbs, nic.kernel`routes, nic.kernel`neighs, nic.kernel`fdbs
      ensures ok ==> Now() == Ensured(t, info, e)
      ensures nic.kernel.addsSucceed ==> (ok <==> !FdbBlocked(t, info, e))
      ensures !ok ==> SameBut(t, Now(), info, e)
      ensures !ok && nic.kernel.delsSucceed && Missing(t, info, e) ==> Now() == t
      ensures !ok && nic.kernel.delsSucceed ==> Within(t, Now())
      ensures ok ==> nic.routes == old(nic.routes)
      ensures !ok && Recording(info, e) in old(nic.routes) ==>
        Recording(info, e) in nic.routes && (nic.kernel.delsSucceed ==> !nic.RoutesRecorded())
    {
      hide HasRoute, HasNeigh, HasFdb, KeyOf, FdbTaken, Within, SameBut, Ensured, Recorded;
      HasEntries(u, info, e);
      ok := nic.AddNeigh(Neigh(e.addr, e.mac, DEVICE));
      if !ok {
        UndoRoute(info, e, t, u);
        return;
      }
      ghost var v := Now();
      ok := AddLast(info, e, t, v);
    }

    /** The rollback when only the route was added. */
    method UndoRoute(info: NodeInfo, e: Endpoint, ghost t: Tables, ghost u: Tables)
      requires e.addr != "" && u == Now()
      requires u.routes == t.routes[RouteFor(info, e) := DEVICE] && u.neighs == t.neighs && u.fdbs == t.fdbs
      modifies nic`routes, nic.kernel`routes
      ensures SameBut(t, Now(), info, e)
      ensures nic.kernel.delsSucceed && Missing(t, info, e) ==> Now() == t
      ensures nic.kernel.delsSucceed ==> Within(t, Now())
      ensures Recording(info, e) in old(nic.routes) ==>
        Recording(info, e) in nic.routes && (nic.kernel.delsSucceed ==> !nic.RoutesRecorded())
    {
      hide HasRoute, HasNeigh, HasFdb, KeyOf, FdbTaken, Within;
      HasEntries(u, info, e);
      AnyDevice(u.routes, info, e);
      MapEdited(t.routes, u.routes, RouteFor(info, e));
      var _ := nic.DelRoute(info.podCidr, e.addr, "");
      MapEdited(u.routes, nic.kernel.routes, RouteFor(info, e));
      if nic.kernel.delsSucceed {
        RolledBack(t, u, Now(), info, e);
        if Recording(info, e) in nic.routes { UntrueRecord(nic.routes, nic.kernel.routes, info, e); }
      }
    }

    /** The FDB entry, or the rollback of the route and the neighbour. */
    method AddLast(info: NodeInfo, e: Endpoint, ghost t: Tables, ghost v: Tables) returns (ok: bool)
      requires info.internalIp != "" && e.addr != "" && e.mac != "" && v == Now()
      requires v.routes == t.routes[RouteFor(info, e) := DEVICE] && v.fdbs == t.fdbs
      requires v.neighs == if NeighFor(e) in t.neighs then t.neighs else t.neighs[NeighFor(e) := e.mac]
      modifies nic`routes, nic`neighs, nic`fdbs, nic.kernel`routes, nic.kernel`neighs, nic.kernel`fdbs
      ensures ok ==> Now() == Ensured(t, info, e)
      ensures nic.kernel.addsSucceed ==> (ok <==> !FdbBlocked(t, info, e))
      ensures !ok ==> SameBut(t, Now(), info, e)
      ensures ok ==> nic.routes == old(nic.routes)
      ensures !ok && Recording(info, e) in old(nic.routes) ==>
        Recording(info, e) in nic.routes && (nic.kernel.delsSucceed ==> !nic.RoutesRecorded())
      ensures !ok && nic.kernel.delsSucceed && Missing(t, info, e) ==> Now() == t
      ensures !ok && nic.kernel.delsSucceed ==> Within(t, Now())
    {
      hide HasRoute, HasNeigh, HasFdb, KeyOf, Installed, Within, FdbTaken;
      HasEntries(v, info, e);
      AnyDevice(v.routes, info, e);
      MapEdited(t.routes, v.routes, RouteFor(info, e));
      MapEdited(t.neighs, v.neighs, NeighFor(e));
      ok := nic.AddFdb(FdbEntry(e.mac, info.internalIp, DEVICE));
      if !ok {
        var _ := nic.DelRoute(info.podCidr, e.addr, "");
        var _ := nic.DelNeigh(e.addr, e.mac, DEVICE);
        MapEdited(v.routes, nic.kernel.routes, RouteFor(info, e));
        if nic.kernel.delsSucceed && Recording(info, e) in nic.routes {
          UntrueRecord(nic.routes, nic.kernel.routes, info, e);
        }
        MapEdited(v.neighs, nic.kernel.neighs, NeighFor(e));
        if nic.kernel.delsSucceed { RolledBack(t, v, Now(), info, e); }
      }
    }

    /** A cached node that is not persisted any more, or whose remover is not: whatever the deletions
        say, it is erased. */
    method RemoveNode(name: Name, e: Endpoint)
      requires name in cache
      modifies this`cache, nic`routes, nic`neighs, nic`fdbs, nic.kernel`routes, nic.kernel`neighs, nic.kernel`fdbs
      ensures cache == old(cache) - {name}
      ensures SameBut(old(Now()), Now(), old(cache)[name], e)
      ensures nic.kernel.delsSucceed ==> Now() == Less(old(Now()), old(cache)[name], e)
      ensures nic.kernel.delsSucceed ==>
        && !HasRoute(nic.kernel.routes, old(cache)[name].podCidr, e.addr, "ohnov")
        && !HasNeigh(nic.kernel.neighs, e.addr, "ohnov")
        && !HasFdb(nic.kernel.fdbs, e.mac, old(cache)[name].internalIp, "ohnov")
      ensures e == Endpoint("", "") ==> Now() == old(Now())
      ensures Within(old(Now()), Now())
    {
      var info := cache[name];
      var _ := nic.DelRoute(info.podCidr, e.addr, DEVICE);
      var _ := nic.DelNeigh(e.addr, e.mac, DEVICE);
      var _ := nic.DelFdb(info.internalIp, e.mac, DEVICE);
      cache := cache - {name};
    }

    /** The body of the loop over the cluster. */
    method Consider(current: Name, name: Name, info: NodeInfo, ghost owners: Owners)
      requires VtepsDecode(storage.client.kv) && EndpointsOwned(owners, storage.client.kv) && info.internalIp != ""
      requires AllInstalled(owners, Now(), cache, at)
      modifies this`cache, this`at, nic`routes, nic`neighs, nic`fdbs, nic.kernel`routes, nic.kernel`neighs,
               nic.kernel`fdbs
      ensures AllInstalled(owners, Now(), cache, at) && OutsideSame(owners, {name}, old(Now()), Now())
      ensures || (cache == old(cache) && at == old(at))
              || (name != current && name !in old(cache) && cache == old(cache)[name := info]
                  && at == old(at)[name := StoredVtep(storage.client.kv, name)])
      ensures name in old(cache) ==> Now() == old(Now())
      ensures cache == old(cache) || (Stale(Now(), at[name]) <==> Stale(old(Now()), at[name]))
      ensures storage.client.reliableReads && nic.kernel.addsSucceed ==>
        var e := StoredVtep(storage.client.kv, name);
        name in cache <==> name in old(cache) || (name != current && e.addr != "" && !Blocked(old(Now()), info, e))
      ensures nic.kernel.delsSucceed ==> Accounts(old(Now()), Now(), HeldBy(cache, at))
    {
      hide HasRoute, HasNeigh, HasFdb, KeyOf, Read, KeyText, DecodeVtep, Installed, SameBut, Missing, Less, With,
           OutsideSame, Stale, Resolves, Blocked, RouteFor, NeighFor, Within, Accounts, Ensured, FdbTaken;
      ghost var t := Now();
      SameOutside(owners, {name}, t);
      WithinSame(t);
      WithinAccounts(t, t, HeldBy(cache, at));
      if name == current { return; }
      ghost var e := StoredVtep(storage.client.kv, name);
      var addr, mac := storage.GetVtep(name);
      if addr != "" && name !in cache {
        assert Endpoint(addr, mac) == e;
        var ok := AddNode(name, info, Endpoint(addr, mac));
        OutsideStep(owners, {name}, name, t, Now(), info, e);
        AllOthersInstalled(owners, t, Now(), old(cache), at, name, info, e);
        if ok {
          at := at[name := e];
          HeldAt(cache, at, name);
          EnsuredAccounts(t, info, e, HeldBy(cache, at));
        } else if nic.kernel.delsSucceed {
          WithinAccounts(t, Now(), HeldBy(cache, at));
        }
      }
    }

    /** The body of the loop over the cache. An unreadable endpoint is an empty one: nothing is deleted
        and the node is erased all the same. */
    method Reconsider(gone: bool, name: Name, ghost owners: Owners)
      requires VtepsDecode(storage.client.kv) && EndpointsOwned(owners, storage.client.kv) && name in cache
      requires AllInstalled(owners, Now(), cache, at)
      modifies this`cache, this`at, nic`routes, nic`neighs, nic`fdbs, nic.kernel`routes, nic.kernel`neighs,
               nic.kernel`fdbs
      ensures AllInstalled(owners, Now(), cache, at) && OutsideSame(owners, {name}, old(Now()), Now())
      ensures cache == old(cache) || (cache == old(cache) - {name} && at == old(at) - {name})
      ensures cache == old(cache) ==> at == old(at) && Now() == old(Now())
      ensures storage.client.reliableReads ==>
        var e := StoredVtep(storage.client.kv, name);
        && cache == (if gone || e.addr == "" then old(cache) - {name} else old(cache))
        && (e.addr == "" ==> Now() == old(Now()))
        && (nic.kernel.delsSucceed && name !in cache ==> Now() == Less(old(Now()), old(cache)[name], e))
      ensures Within(old(Now()), Now())
    {
      hide HasRoute, HasNeigh, HasFdb, KeyOf, Read, KeyText, DecodeVtep, Installed, SameBut, Missing, Less, With,
           OutsideSame, Within;
      WithinSame(Now());
      ghost var t, before := Now(), cache;
      SameOutside(owners, {name}, t);
      ghost var e := StoredVtep(storage.client.kv, name);
      var addr, mac := storage.GetVtep(name);
      if gone || addr == "" {
        RemoveNode(name, Endpoint(addr, mac));
        if addr != "" {
          OutsideStep(owners, {name}, name, t, Now(), before[name], e);
          AllOthersInstalled(owners, t, Now(), before, at, name, before[name], e);
        }
        at := at - {name};
      }
    }

    /** The loop over the cluster. */
    method ConsiderAll(current: Name, cluster: Infos, ghost owners: Owners)
      requires VtepsDecode(storage.client.kv) && EndpointsOwned(owners, storage.client.kv)
      requires (forall n <- cluster :: cluster[n].internalIp != "") && AllInstalled(owners, Now(), cache, at)
      modifies this`cache, this`at, nic`routes, nic`neighs, nic`fdbs, nic.kernel`routes, nic.kernel`neighs,
               nic.kernel`fdbs
      ensures AllInstalled(owners, Now(), cache, at)
      ensures OutsideSame(owners, cluster.Keys, old(Now()), Now())
      ensures Grown(storage.client.kv, current, cluster, old(cache), old(at), cache, at)
      ensures StaleKept(old(Now()), Now(), cache, at)
      ensures storage.client.reliableReads && nic.kernel.addsSucceed ==>
        Joined(old(Now()), storage.client.kv, current, cluster, old(cache), cache, cluster.Keys)
      ensures nic.kernel.delsSucceed ==> Accounts(old(Now()), Now(), HeldBy(cache, at))
    {
      hide HasRoute, HasNeigh, HasFdb, KeyOf, Installed, SameBut, OutsideSame, StoredVtep, VtepsDecode, EndpointsOwned,
           AllInstalled, Stale, Blocked, Of, Grown, StaleKept, Joined, Accounts, HeldBy, Within;
      ghost var t, kv, before, atBefore := Now(), storage.client.kv, cache, at;
      ghost var done: set<Name> := {};
      SameOutside(owners, done, t);
      GrownNone(owners, t, kv, current, cluster, cache, at);
      WithinSame(t);
      WithinAccounts(t, t, HeldBy(cache, at));
      var todo := cluster.Keys;
      while todo != {}
        invariant todo <= cluster.Keys && storage.client.kv == kv && done == cluster.Keys - todo
        invariant AllInstalled(owners, Now(), cache, at) && OutsideSame(owners, done, t, Now())
        invariant Grown(kv, current, cluster, before, atBefore, cache, at)
        invariant StaleKept(t, Now(), cache, at)
        invariant storage.client.reliableReads && nic.kernel.addsSucceed ==>
          Joined(t, kv, current, cluster, before, cache, done)
        invariant nic.kernel.delsSucceed ==> Accounts(t, Now(), HeldBy(cache, at))
      {
        var name: Name :| name in todo;
        ghost var u, mid, atMid := Now(), cache, at;
        Consider(current, name, cluster[name], owners);
        OutsideMore(owners, {name}, done + {name}, u, Now());
        OutsideMore(owners, done, done + {name}, t, u);
        OutsideTrans(owners, done + {name}, t, u, Now());
        if cache == mid {
          StaleStays(owners, name, t, u, Now(), cache, at);
        } else {
          GrownMore(kv, current, cluster, before, atBefore, mid, atMid, name);
          StaleMore(owners, done, name, t, u, Now(), mid, atMid, cluster[name], at[name]);
          HeldMore(mid, atMid, name, cluster[name], at[name]);
        }
        if nic.kernel.delsSucceed {
          AccountsTrans(t, u, Now(), HeldBy(mid, atMid), HeldBy(cache, at), HeldBy(cache, at));
        }
        if storage.client.reliableReads && nic.kernel.addsSucceed {
          JoinedMore(owners, t, u, kv, current, cluster, before, mid, cache, done, name);
        }
        todo := todo - {name};
        done := done + {name};
      }
      assert done == cluster.Keys;
    }

    /** The loop over the cache. */
    method ReconsiderAll(gone: bool, ghost owners: Owners)
      requires VtepsDecode(storage.client.kv) && EndpointsOwned(owners, storage.client.kv)
      requires AllInstalled(owners, Now(), cache, at)
      modifies this`cache, this`at, nic`routes, nic`neighs, nic`fdbs, nic.kernel`routes, nic.kernel`neighs,
               nic.kernel`fdbs
      ensures AllInstalled(owners, Now(), cache, at)
      ensures OutsideSame(owners, old(cache).Keys, old(Now()), Now())
      ensures Shrunk(old(cache), old(at), cache, at)
      ensures StaleKept(old(Now()), Now(), cache, at) && Within(old(Now()), Now())
      ensures storage.client.reliableReads ==> Remaining(storage.client.kv, gone, old(cache), cache, {})
      ensures storage.client.reliableReads && !gone ==> Now() == old(Now())
      ensures storage.client.reliableReads && nic.kernel.delsSucceed && gone ==>
        AllCleared(Now(), storage.client.kv, old(cache), old(at), {})
    {
      hide HasRoute, HasNeigh, HasFdb, KeyOf, Installed, SameBut, OutsideSame, StoredVtep, VtepsDecode, EndpointsOwned,
           AllInstalled, Less, Gone, Stale, Of, Shrunk, StaleKept, Remaining, AllCleared, Within;
      ghost var t, kv, before, atBefore := Now(), storage.client.kv, cache, at;
      WithinSame(t);
      SameOutside(owners, before.Keys, t);
      ShrunkNone(owners, t, kv, gone, cache, at);
      var todo := cache.Keys;
      while todo != {}
        invariant todo <= cache.Keys <= before.Keys && storage.client.kv == kv
        invariant AllInstalled(owners, Now(), cache, at) && OutsideSame(owners, before.Keys, t, Now())
        invariant Shrunk(before, atBefore, cache, at)
        invariant StaleKept(t, Now(), cache, at) && Within(t, Now())
        invariant storage.client.reliableReads ==> Remaining(kv, gone, before, cache, todo)
        invariant storage.client.reliableReads && !gone ==> Now() == t
        invariant storage.client.reliableReads && nic.kernel.delsSucceed && gone ==>
          AllCleared(Now(), kv, before, atBefore, todo)
      {
        var name: Name :| name in todo;
        ghost var u, mid, atMid := Now(), cache, at;
        Reconsider(gone, name, owners);
        OutsideMore(owners, {name}, before.Keys, u, Now());
        OutsideTrans(owners, before.Keys, t, u, Now());
        WithinTrans(t, u, Now());
        ShrunkMore(owners, name, t, u, Now(), before, atBefore, mid, atMid, cache, at);
        if storage.client.reliableReads {
          RemainingMore(kv, gone, before, mid, cache, todo, name);
          if nic.kernel.delsSucceed && gone {
            ClearedStep(owners, kv, t, before, atBefore, mid, atMid, todo, name, u);
          }
        }
        todo := todo - {name};
      }
    }

    /** One tick: `eventHandler`. Whatever fails, every cached node has its three entries afterwards,
        this node is not cached, and entries that belong to no node of the cluster or the cache are as
        they were; a cached node's neighbour has its MAC exactly if no stale one was there. While this
        node's VTEP is stored, a node whose own VTEP has gone is erased from the cache but its entries
        all stay. So a node that leaves takes its entries with it exactly when this node's VTEP is gone
        and its own is still the one it was installed with. */
    method EventHandler(current: Name, cluster: Infos, ghost owners: Owners)
      requires VtepsDecode(storage.client.kv) && EndpointsOwned(owners, storage.client.kv)
      requires (forall n <- cluster :: cluster[n].internalIp != "")
      requires AllInstalled(owners, Now(), cache, at) && current !in cache
      modifies this`cache, this`at, nic`routes, nic`neighs, nic`fdbs, nic.kernel`routes, nic.kernel`neighs,
               nic.kernel`fdbs
      ensures AllInstalled(owners, Now(), cache, at) && current !in cache
      ensures AllReached(Now(), cache, at) && AllAsStored(storage.client.kv, cluster, old(cache), cache, at)
      ensures OutsideSame(owners, cluster.Keys + old(cache).Keys, old(Now()), Now())
      ensures Explained(storage.client.kv, current, cluster, old(cache), old(at), cache, at)
      ensures AllResolve(old(Now()), Now(), cache, at)
      ensures storage.client.reliableReads ==> Staying(storage.client.kv, current, old(cache), cache)
      ensures storage.client.reliableReads && StoredVtep(storage.client.kv, current).addr != "" ==>
        StillThere(Now(), old(cache), old(at))
      ensures storage.client.reliableReads && nic.kernel.addsSucceed
              && StoredVtep(storage.client.kv, current).addr != "" ==>
        Settled(old(Now()), storage.client.kv, current, cluster, old(cache), cache)
      ensures storage.client.reliableReads && StoredVtep(storage.client.kv, current).addr == "" ==> cache == map[]
      ensures storage.client.reliableReads && nic.kernel.addsSucceed ==>
        CachedAsStored(old(Now()), storage.client.kv, current, cluster, old(cache), cache)
      ensures storage.client.reliableReads && nic.kernel.delsSucceed
              && StoredVtep(storage.client.kv, current).addr == "" ==>
        NoneReadable(Now(), storage.client.kv, old(cache)) && NoneReached(Now(), storage.client.kv, old(cache))
      ensures storage.client.reliableReads && nic.kernel.delsSucceed ==>
        forall n <- old(cache) :: n !in cache ==>
          LeavesExactly(Now(), storage.client.kv, current, old(cache), old(at), n)
      ensures storage.client.reliableReads && nic.kernel.delsSucceed ==>
        Accounts(old(Now()), Now(), HeldBy(old(cache), old(at)) + HeldBy(cache, at))
    {
      hide HasRoute, HasNeigh, HasFdb, KeyOf, Installed, SameBut, OutsideSame, EndpointsOwned, Gone, DecodeVtep, Read,
           KeyText, StoredVtep, AllInstalled, Stale, Resolves, StaleKept, AllResolve, Grown, Shrunk, Joined, Remaining,
           AllCleared, Explained, Staying, Settled, StillThere, NoneReadable, LeavesExactly, Accounts, HeldBy, Within,
           AllReached, AllAsStored, NoneReached, CachedAsStored;
      ghost var t, before, atBefore, kv := Now(), cache, at, storage.client.kv;
      ghost var names := cluster.Keys + before.Keys;
      SameOutside(owners, names, t);
      GrownNone(owners, t, kv, current, cluster, cache, at);
      WithinSame(t);
      WithinAccounts(t, t, HeldBy(cache, at));
      DecodesAt(kv, current);
      var addr, _ := storage.GetVtep(current);
      assert storage.client.reliableReads ==> addr == StoredVtep(kv, current).addr;
      if addr != "" {
        ConsiderAll(current, cluster, owners);
        OutsideMore(owners, cluster.Keys, names, t, Now());
      }
      ghost var u, mid, atMid := Now(), cache, at;
      GrownNames(kv, current, cluster, before, atBefore, mid, atMid);
      ReconsiderAll(addr == "", owners);
      OutsideMore(owners, mid.Keys, names, u, Now());
      OutsideTrans(owners, names, t, u, Now());
      StaleTrans(t, u, Now(), mid, atMid, cache, at);
      KeptResolve(owners, t, Now(), cache, at);
      TickExplained(kv, current, cluster, before, atBefore, mid, atMid, cache, at);
      InstalledReached(owners, Now(), cache, at);
      ExplainedStored(owners, kv, Now(), current, cluster, before, atBefore, cache, at);
      if storage.client.reliableReads {
        if nic.kernel.delsSucceed {
          HeldStays(owners, u, kv, current, cluster, before, atBefore, mid, atMid, addr == "", cache, at);
          WithinAccounts(u, Now(), {});
          AccountsTrans(t, u, Now(), HeldBy(mid, atMid), {}, HeldBy(before, atBefore) + HeldBy(cache, at));
        }
        if addr != "" {
          TickStays(owners, kv, current, cluster, u, before, atBefore, mid, atMid, cache);
          if nic.kernel.addsSucceed { TickSettles(t, kv, current, cluster, before, mid, cache); }
          if nic.kernel.addsSucceed { SettledAsStored(t, kv, current, cluster, before, cache); }
        } else {
          TickEmpties(kv, current, mid, cache);
          SettledAsStored(t, kv, current, cluster, before, cache);
          if nic.kernel.delsSucceed {
            TickClears(Now(), kv, current, mid, atMid);
            UnreadableReached(Now(), kv, mid);
          }
        }
      }
    }
  }

  // ---------------------------------------------------------------- runs of ticks

  /** What a tick leaks: the nodes that leave the cache while some entry of theirs is still there. */
  ghost function LeakedBy(t: Tables, before: set<Held>, after: set<Held>): set<Held> {
    set x | x in before && x !in after && !Gone(t, x.0, x.1)
  }

  /** The caches, the endpoints and the tables between ticks. */
  datatype Stage = Stage(cache: Infos, at: map<Name, Endpoint>, tables: Tables)
  {
    ghost function Installations(): set<Held> { HeldBy(cache, at) }
  }

  /** What the first `i` ticks of a run leaked. */
  ghost function Leaked(stages: seq<Stage>, i: nat): set<Held>
    requires i < |stages|
  {
    if i == 0 then {}
    else Leaked(stages, i - 1) + LeakedBy(stages[i].tables, stages[i - 1].Installations(), stages[i].Installations())
  }

  /** The tables of a run hold what was there at its start, the entries of the cached nodes, and those
      the ticks leaked. */
  ghost predicate RunAccounted(stages: seq<Stage>, i: nat)
    requires i < |stages|
  {
    Accounts(stages[0].tables, stages[i].tables, stages[i].Installations() + Leaked(stages, i))
  }

  /** One tick of a run: every cached node is reached, the new ones as the store says; a cached node's
      neighbour has its MAC exactly if none with another one was there, and, without failures,
        the cache is the right one. */
  ghost predicate Tick(kv: map<string, string>, current: Name, cluster: Infos, before: Stage, after: Stage,
                       sure: bool) {
    && AllResolve(before.tables, after.tables, after.cache, after.at)
    && AllReached(after.tables, after.cache, after.at) && AllAsStored(kv, cluster, before.cache, after.cache, after.at)
    && (sure ==> if StoredVtep(kv, current).addr == "" then after.cache == map[]
                 else Settled(before.tables, kv, current, cluster, before.cache, after.cache))
  }

  /** Ticks one after the other; between two of them other processes write the store, in which every
      address and MAC of an endpoint stays one node's. Whatever fails, every cached node has its three
      entries all along, and what belongs to none of the nodes met is as it was. When reads and deletions
      succeed, the tables are accounted for. */
  method Ticks(vxlan: Vxlan, current: Name, clusters: seq<Infos>, stores: seq<map<string, string>>,
               ghost owners: Owners, ghost names: set<Name>)
    returns (ghost stages: seq<Stage>)
    requires |stores| == |clusters|
    requires forall s <- stores :: VtepsDecode(s) && EndpointsOwned(owners, s)
    requires forall c <- clusters :: Told(c, names)
    requires AllInstalled(owners, vxlan.Now(), vxlan.cache, vxlan.at)
    requires current !in vxlan.cache && vxlan.cache.Keys <= names
    modifies vxlan`cache, vxlan`at, vxlan.nic`routes, vxlan.nic`neighs, vxlan.nic`fdbs, vxlan.nic.kernel`routes,
             vxlan.nic.kernel`neighs, vxlan.nic.kernel`fdbs, vxlan.storage.client`kv
    ensures AllInstalled(owners, vxlan.Now(), vxlan.cache, vxlan.at)
    ensures current !in vxlan.cache && vxlan.cache.Keys <= names
    ensures OutsideSame(owners, names, old(vxlan.Now()), vxlan.Now())
    ensures |stages| == |clusters| + 1 && stages[0] == Stage(old(vxlan.cache), old(vxlan.at), old(vxlan.Now()))
    ensures stages[|clusters|] == Stage(vxlan.cache, vxlan.at, vxlan.Now())
    ensures forall i | 0 <= i < |clusters| ::
      Tick(stores[i], current, clusters[i], stages[i], stages[i + 1],
           vxlan.storage.client.reliableReads && vxlan.nic.kernel.addsSucceed)
    ensures vxlan.storage.client.reliableReads && vxlan.nic.kernel.delsSucceed ==>
      forall i | 0 <= i <= |clusters| :: RunAccounted(stages, i)
  {
    hide AllInstalled, OutsideSame, VtepsDecode, EndpointsOwned, StoredVtep, AllResolve, Staying, Settled, StillThere,
         NoneReadable, LeavesExactly, Explained, Accounts, HeldBy, RunAccounted, LeakedBy, AllReached, AllAsStored,
         NoneReached, CachedAsStored;
    ghost var t := vxlan.Now();
    SameOutside(owners, names, t);
    stages := [Stage(vxlan.cache, vxlan.at, t)];
    StartAccounted(stages[0]);
    for i := 0 to |clusters|
      invariant AllInstalled(owners, vxlan.Now(), vxlan.cache, vxlan.at)
      invariant current !in vxlan.cache && vxlan.cache.Keys <= names
      invariant OutsideSame(owners, names, t, vxlan.Now())
      invariant |stages| == i + 1 && stages[0] == Stage(old(vxlan.cache), old(vxlan.at), t)
      invariant stages[i] == Stage(vxlan.cache, vxlan.at, vxlan.Now())
      invariant forall j | 0 <= j < i ::
        Tick(stores[j], current, clusters[j], stages[j], stages[j + 1],
             vxlan.storage.client.reliableReads && vxlan.nic.kernel.addsSucceed)
      invariant vxlan.storage.client.reliableReads && vxlan.nic.kernel.delsSucceed ==>
        forall j | 0 <= j <= i :: RunAccounted(stages, j)
    {
      ghost var last := stages[i];
      assert clusters[i] in clusters && stores[i] in stores;
      vxlan.storage.client.kv := stores[i];
      vxlan.EventHandler(current, clusters[i], owners);
      ExplainedNames(stores[i], current, clusters[i], last.cache, last.at, vxlan.cache, vxlan.at);
      OutsideMore(owners, clusters[i].Keys + last.cache.Keys, names, last.tables, vxlan.Now());
      OutsideTrans(owners, names, t, last.tables, vxlan.Now());
      ghost var next := Stage(vxlan.cache, vxlan.at, vxlan.Now());
      if vxlan.storage.client.reliableReads && vxlan.nic.kernel.delsSucceed {
        forall j | 0 <= j <= i ensures RunAccounted(stages + [next], j) { SameAccounted(stages, next, j); }
        NextAccounted(owners, stages, next);
      }
      stages := stages + [next];
    }
  }

  lemma StartAccounted(s: Stage)
    ensures RunAccounted([s], 0)
  {
    WithinSame(s.tables);
    WithinAccounts(s.tables, s.tables, HeldBy(s.cache, s.at) + Leaked([s], 0));
  }

  lemma {:induction false} SameLeaked(stages: seq<Stage>, next: Stage, i: nat)
    requires i < |stages|
    ensures Leaked(stages + [next], i) == Leaked(stages, i)
  {
    hide LeakedBy;
    if i > 0 { SameLeaked(stages, next, i - 1); }
  }

  lemma SameAccounted(stages: seq<Stage>, next: Stage, i: nat)
    requires i < |stages| && RunAccounted(stages, i)
    ensures RunAccounted(stages + [next], i)
  {
    hide Accounts, HeldBy, Leaked;
    SameLeaked(stages, next, i);
  }

  lemma NextAccounted(owners: Owners, stages: seq<Stage>, next: Stage)
    requires stages != [] && RunAccounted(stages, |stages| - 1)
    requires var last := stages[|stages| - 1];
             && AllInstalled(owners, last.tables, last.cache, last.at)
             && Accounts(last.tables, next.tables, HeldBy(last.cache, last.at) + HeldBy(next.cache, next.at))
    ensures RunAccounted(stages + [next], |stages|)
  {
    hide Accounts, Gone, Installed, Leaked, RunAccounted;
    var i := |stages|;
    var last, leaked, all := stages[i - 1], Leaked(stages, i - 1), stages + [next];
    LeakedNext(stages, next);
    LastAccounted(stages);
    var before, after := last.Installations(), next.Installations();
    AccountsTrans(all[0].tables, last.tables, next.tables, before + leaked, before + after, before + after + leaked);
    var kept := after + (leaked + LeakedBy(next.tables, before, after));
    HeldReady(owners, last.tables, last.cache, last.at);
    GoneAccounts(all[0].tables, next.tables, before + after + leaked, kept);
    NextIs(stages, next);
  }

  lemma HeldReady(owners: Owners, t: Tables, cache: Infos, at: map<Name, Endpoint>)
    requires AllInstalled(owners, t, cache, at)
    ensures forall x <- HeldBy(cache, at) :: x.0.internalIp != "" && x.1.addr != "" && x.1.mac != ""
  {
    hide Installed;
  }

  lemma {:induction false} LeakedNext(stages: seq<Stage>, next: Stage)
    requires stages != []
    ensures var i := |stages|;
            Leaked(stages + [next], i) ==
            Leaked(stages, i - 1) + LeakedBy(next.tables, stages[i - 1].Installations(), next.Installations())
  {
    hide LeakedBy, HeldBy;
    SameLeaked(stages, next, |stages| - 1);
  }

  lemma {:induction false} LastAccounted(stages: seq<Stage>)
    requires stages != [] && RunAccounted(stages, |stages| - 1)
    ensures var last := stages[|stages| - 1];
            Accounts(stages[0].tables, last.tables, last.Installations() + Leaked(stages, |stages| - 1))
  {
    hide Accounts, HeldBy, Leaked;
  }

  lemma {:induction false} NextIs(stages: seq<Stage>, next: Stage)
    requires stages != []
    requires Accounts(stages[0].tables, next.tables, next.Installations() + Leaked(stages + [next], |stages|))
    ensures RunAccounted(stages + [next], |stages|)
  {
    hide Accounts, HeldBy, Leaked;
  }

  ghost predicate Told(cluster: Infos, names: set<Name>) {
    cluster.Keys <= names && forall n <- cluster :: cluster[n].internalIp != ""
  }

  lemma ExplainedNames(kv: map<string, string>, current: Name, cluster: Infos, before: Infos,
                       atBefore: map<Name, Endpoint>, cache: Infos, at: map<Name, Endpoint>)
    requires Explained(kv, current, cluster, before, atBefore, cache, at)
    ensures cache.Keys <= cluster.Keys + before.Keys
  {
    hide StoredVtep;
  }
}
