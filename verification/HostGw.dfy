/** The host-gateway reconciler of src/backend/host_gw.cc: one tick compares the cluster, the store
    and the cache of nodes, and edits the static routes of this node. Maps are walked in any order,
    and the walk has no say in the result. */
module HostGw {
  import opened Keys
  import opened Center
  import opened Etcd
  import opened Ipam
  import opened Storage
  import opened Netlink
  import opened Nic

  function RouteOf(info: NodeInfo): RouteKey {
    KeyOf(info.podCidr, info.internalIp)
  }

  ghost function RoutesOf(cache: Infos): set<RouteKey> {
    set n | n in cache :: RouteOf(cache[n])
  }

  // ---------------------------------------------------------------- accounting

  /** The kernel's routes are the unrelated ones of `base`, unchanged, and the routes of the cache. */
  ghost predicate Accounted(base: Routes, routes: Routes, cache: Infos) {
    && routes.Keys == base.Keys + RoutesOf(cache)
    && forall k <- base :: k in routes && routes[k] == base[k]
  }

  /** What an account says without naming keys: every cached node's podCIDR is routed via its address,
      and there is no other route that is not unrelated. */
  lemma AccountedRoutes(base: Routes, routes: Routes, cache: Infos)
    requires Accounted(base, routes, cache) && forall n <- cache :: cache[n].internalIp != ""
    ensures forall n <- cache :: HasRoute(routes, cache[n].podCidr, cache[n].internalIp, "")
    ensures forall n <- cache :: cache[n].podCidr != "" ==> RouteKey(cache[n].podCidr, cache[n].internalIp) in routes
    ensures forall dest: string, via: string | dest != "" && dest != "default" && RouteKey(dest, via) in routes ::
      RouteKey(dest, via) in base || exists n <- cache :: cache[n].podCidr == dest && cache[n].internalIp == via
  {
    forall n <- cache ensures RouteOf(cache[n]) in routes { assert RouteOf(cache[n]) in RoutesOf(cache); }
    forall dest: string, via: string
      | dest != "" && dest != "default" && RouteKey(dest, via) in routes && RouteKey(dest, via) !in base
      ensures exists n <- cache :: cache[n].podCidr == dest && cache[n].internalIp == via
    {
      var n :| n in cache && RouteOf(cache[n]) == RouteKey(dest, via);
    }
  }

  /** Each route belongs to one node, and none of them is in `base`. */
  ghost predicate Owns(owner: RouteKey -> Name, base: Routes, infos: Infos) {
    forall n <- infos :: owner(RouteOf(infos[n])) == n && RouteOf(infos[n]) !in base
  }

  lemma AddAccounts(base: Routes, before: Routes, cache: Infos, n: Name, info: NodeInfo, after: Routes)
    requires Accounted(base, before, cache) && n !in cache
    requires RouteOf(info) in after
    requires after == before || (RouteOf(info) !in before && after == before[RouteOf(info) := after[RouteOf(info)]])
    ensures Accounted(base, after, cache[n := info])
  {
    RoutesOfMore(cache, n, info);
  }

  lemma RoutesOfMore(cache: Infos, n: Name, info: NodeInfo)
    requires n !in cache
    ensures RoutesOf(cache[n := info]) == RoutesOf(cache) + {RouteOf(info)}
  {
    var more := cache[n := info];
    assert RouteOf(more[n]) in RoutesOf(more);
    forall k <- RoutesOf(cache)
      ensures k in RoutesOf(more)
    {
      var m :| m in cache && RouteOf(cache[m]) == k;
      assert RouteOf(more[m]) in RoutesOf(more);
    }
  }

  /** Erasing a node with its route keeps the account exactly when the route is no other cached
      node's and was not there before. */
  lemma RemovalExact(base: Routes, routes: Routes, cache: Infos, n: Name)
    requires Accounted(base, routes, cache) && n in cache
    ensures Accounted(base, routes - {RouteOf(cache[n])}, cache - {n}) <==>
            RouteOf(cache[n]) !in base && forall m <- cache :: m != n ==> RouteOf(cache[m]) != RouteOf(cache[n])
  {
    var k, left, after := RouteOf(cache[n]), cache - {n}, routes - {RouteOf(cache[n])};
    assert forall m <- left :: left[m] == cache[m];
    assert forall m <- cache :: m == n || m in left;
    if Accounted(base, after, left) {
      forall m <- cache | m != n
        ensures RouteOf(cache[m]) != k
      {
        assert RouteOf(left[m]) in RoutesOf(left);
      }
    }
    if k !in base && forall m <- cache :: m != n ==> RouteOf(cache[m]) != k {
      assert RoutesOf(left) == RoutesOf(cache) - {k};
    }
  }

  lemma SharedRouteIsLost(base: Routes, info: NodeInfo, a: Name, b: Name)
    requires a != b && RouteOf(info) !in base
    ensures var cache: Infos := map[a := info, b := info];
            var routes := base[RouteOf(info) := ""];
            Accounted(base, routes, cache) && !Accounted(base, routes - {RouteOf(info)}, cache - {a})
  {
    var cache: Infos := map[a := info, b := info];
    var routes := base[RouteOf(info) := ""];
    assert RouteOf(cache[a]) in RoutesOf(cache) && RouteOf(cache[b]) == RouteOf(cache[a]);
    RemovalExact(base, routes, cache, a);
  }

  // ---------------------------------------------------------------- one tick

  /** A node has a persisted subnet. */
  predicate Persisted(kv: map<string, string>, n: Name) {
    Read(kv, KeyText(NodeSubnet(n))) != ""
  }

  /** The cache a failure-free tick ends with: the cached nodes and the cluster's, except this one,
      as far as they are persisted; nothing when this one is not. */
  ghost function Settled(kv: map<string, string>, cluster: Infos, current: Name, cache: Infos): Infos {
    map n: Name | n in cache.Keys + (cluster.Keys - {current}) && Persisted(kv, current) && Persisted(kv, n)
      :: if n in cache then cache[n] else cluster[n]
  }

  /** The cache with some nodes of the cluster added. */
  ghost function Grown(cache: Infos, cluster: Infos, added: set<Name>): Infos {
    cache + map n: Name | n in added && n in cluster :: cluster[n]
  }

  ghost function RoutesAmong(infos: Infos, names: set<Name>): set<RouteKey> {
    set n | n in names && n in infos :: RouteOf(infos[n])
  }

  /** What one tick may do, whatever fails: some nodes of the cluster are added with their routes,
      then some cached nodes are removed with theirs. */
  ghost predicate Ticked(current: Name, cluster: Infos, cache: Infos, routes: Routes, added: set<Name>,
                         removed: set<Name>, cacheAfter: Infos, routesAfter: Routes) {
    var grown := Grown(cache, cluster, added);
    && added <= cluster.Keys - {current} - cache.Keys
    && removed <= grown.Keys
    && cacheAfter == grown - removed
    && routesAfter.Keys == routes.Keys + RoutesAmong(cluster, added) - RoutesAmong(grown, removed)
    && forall k <- routes :: k in routesAfter ==> routesAfter[k] == routes[k]
  }

  /** What one tick does when reads are reliable and commands succeed. */
  ghost predicate Complete(kv: map<string, string>, current: Name, cluster: Infos, cache: Infos, added: set<Name>,
                           removed: set<Name>) {
    && added == Joining(kv, current, cluster, cache)
    && removed == Leaving(kv, current, Grown(cache, cluster, added))
  }

  ghost function Joining(kv: map<string, string>, current: Name, cluster: Infos, cache: Infos): set<Name> {
    set n | n in cluster && Persisted(kv, current) && n != current && n !in cache && Persisted(kv, n)
  }

  ghost function Leaving(kv: map<string, string>, current: Name, cache: Infos): set<Name> {
    set n | n in cache && !(Persisted(kv, current) && Persisted(kv, n))
  }

  // ---------------------------------------------------------------- every tick keeps the account

  lemma RoutesOfGrown(cache: Infos, cluster: Infos, added: set<Name>)
    requires added <= cluster.Keys - cache.Keys
    ensures RoutesOf(Grown(cache, cluster, added)) == RoutesOf(cache) + RoutesAmong(cluster, added)
  {
    hide RouteOf;
    var grown := Grown(cache, cluster, added);
    forall k <- RoutesOf(cache) + RoutesAmong(cluster, added)
      ensures k in RoutesOf(grown)
    {
      if k in RoutesOf(cache) {
        var n :| n in cache && RouteOf(cache[n]) == k;
        assert RouteOf(grown[n]) in RoutesOf(grown);
      } else {
        var n :| n in added && n in cluster && RouteOf(cluster[n]) == k;
        assert RouteOf(grown[n]) in RoutesOf(grown);
      }
    }
  }

  lemma RoutesOfFewer(owner: RouteKey -> Name, base: Routes, cache: Infos, removed: set<Name>)
    requires Owns(owner, base, cache)
    ensures RoutesOf(cache - removed) == RoutesOf(cache) - RoutesAmong(cache, removed)
  {
    hide RouteOf;
    var left := cache - removed;
    forall k <- RoutesOf(cache) | k !in RoutesAmong(cache, removed)
      ensures k in RoutesOf(left)
    {
      var n :| n in cache && RouteOf(cache[n]) == k;
      assert n !in removed;
      assert RouteOf(left[n]) in RoutesOf(left);
    }
  }

  lemma OwnsGrown(owner: RouteKey -> Name, base: Routes, cache: Infos, cluster: Infos, added: set<Name>)
    requires Owns(owner, base, cache) && Owns(owner, base, cluster)
    ensures Owns(owner, base, Grown(cache, cluster, added))
  {
    hide RouteOf;
  }

  lemma BaseKept(owner: RouteKey -> Name, base: Routes, grown: Infos, removed: set<Name>)
    requires Owns(owner, base, grown)
    ensures base.Keys !! RoutesAmong(grown, removed)
  {
    hide RouteOf;
  }

  /** Exact accounting: whatever commands and reads fail in a tick, the kernel has the unrelated
      routes and exactly the routes of the cache afterwards, if it had before. */
  lemma TickAccounts(owner: RouteKey -> Name, base: Routes, current: Name, cluster: Infos, cache: Infos, routes: Routes,
                     added: set<Name>, removed: set<Name>, cacheAfter: Infos, routesAfter: Routes)
    requires Ticked(current, cluster, cache, routes, added, removed, cacheAfter, routesAfter)
    requires Accounted(base, routes, cache) && Owns(owner, base, cache)
    requires Owns(owner, base, cluster) && current !in cache
    ensures Accounted(base, routesAfter, cacheAfter) && Owns(owner, base, cacheAfter) && current !in cacheAfter
  {
    hide RouteOf, Grown, RoutesOf, RoutesAmong;
    var grown := Grown(cache, cluster, added);
    GrownKeys(cache, cluster, added);
    RoutesOfGrown(cache, cluster, added);
    OwnsGrown(owner, base, cache, cluster, added);
    RoutesOfFewer(owner, base, grown, removed);
    BaseKept(owner, base, grown, removed);
  }

  /** One tick of a run: the snapshot of the cluster, and what was added and removed. */
  datatype Tick = Tick(cluster: Infos, added: set<Name>, removed: set<Name>)

  ghost predicate TickRun(current: Name, ticks: seq<Tick>, caches: seq<Infos>, tables: seq<Routes>) {
    && |caches| == |tables| == |ticks| + 1
    && forall i | 0 <= i < |ticks| ::
         Ticked(current, ticks[i].cluster, caches[i], tables[i], ticks[i].added, ticks[i].removed, caches[i + 1],
             tables[i + 1])
  }

  /** Over every run of ticks, with any cluster snapshots, stores and failures, the account is exact
      and this node is never cached, as long as no two nodes ever share a route. */
  lemma {:induction false} RunAccounts(owner: RouteKey -> Name, base: Routes, current: Name, ticks: seq<Tick>,
                                       caches: seq<Infos>, tables: seq<Routes>, i: nat)
    requires TickRun(current, ticks, caches, tables) && i <= |ticks|
    requires forall t <- ticks :: Owns(owner, base, t.cluster)
    requires caches[0] == map[] && tables[0] == base
    ensures Accounted(base, tables[i], caches[i]) && Owns(owner, base, caches[i]) && current !in caches[i]
  {
    hide RouteOf, Ticked;
    if i > 0 {
      RunAccounts(owner, base, current, ticks, caches, tables, i - 1);
      var t := ticks[i - 1];
      assert t in ticks;
      TickAccounts(owner, base, current, t.cluster, caches[i - 1], tables[i - 1], t.added, t.removed, caches[i],
          tables[i]);
    }
  }

  /** Some routes were left behind by an earlier process: the kernel has the unrelated routes, those of
      the cache, and no others but leftovers. */
  ghost predicate AccountedBut(left: set<RouteKey>, base: Routes, routes: Routes, cache: Infos) {
    && base.Keys + RoutesOf(cache) <= routes.Keys <= base.Keys + left + RoutesOf(cache)
    && forall k <- base :: k in routes && routes[k] == base[k]
  }

  lemma TickAccountsBut(owner: RouteKey -> Name, left: set<RouteKey>, base: Routes, current: Name, cluster: Infos,
                        cache: Infos, routes: Routes, added: set<Name>, removed: set<Name>, cacheAfter: Infos,
                        routesAfter: Routes)
    requires Ticked(current, cluster, cache, routes, added, removed, cacheAfter, routesAfter)
    requires AccountedBut(left, base, routes, cache) && Owns(owner, base, cache)
    requires Owns(owner, base, cluster) && current !in cache
    ensures AccountedBut(left, base, routesAfter, cacheAfter) && Owns(owner, base, cacheAfter) && current !in cacheAfter
  {
    hide RouteOf, Grown, RoutesOf, RoutesAmong;
    var grown := Grown(cache, cluster, added);
    GrownKeys(cache, cluster, added);
    RoutesOfGrown(cache, cluster, added);
    OwnsGrown(owner, base, cache, cluster, added);
    RoutesOfFewer(owner, base, grown, removed);
    BaseKept(owner, base, grown, removed);
  }

  /** A node with this route was cached by one of the first `i` ticks. */
  ghost predicate Taken(ticks: seq<Tick>, i: nat, k: RouteKey)
    requires i <= |ticks|
  {
    exists j | 0 <= j < i :: k in RoutesAmong(ticks[j].cluster, ticks[j].added)
  }

  lemma TakenMore(ticks: seq<Tick>, i: nat, k: RouteKey)
    requires 0 < i <= |ticks|
    ensures Taken(ticks, i, k) <==> Taken(ticks, i - 1, k) || k in RoutesAmong(ticks[i - 1].cluster, ticks[i - 1].added)
  {
    hide RoutesAmong;
  }

  /** A route that is neither the cache's nor one of a node that is added stays, and stays out of the
      cache. */
  lemma UntakenStays(current: Name, t: Tick, cache: Infos, routes: Routes, cacheAfter: Infos, routesAfter: Routes,
                     k: RouteKey)
    requires Ticked(current, t.cluster, cache, routes, t.added, t.removed, cacheAfter, routesAfter)
    requires k in routes && k !in RoutesOf(cache) && k !in RoutesAmong(t.cluster, t.added)
    ensures k in routesAfter && k !in RoutesOf(cacheAfter)
  {
    hide RouteOf, Grown;
    var grown := Grown(cache, t.cluster, t.added);
    RoutesOfGrown(cache, t.cluster, t.added);
    forall n <- t.removed | n in grown ensures RouteOf(grown[n]) in RoutesOf(grown) {}
    forall n <- cacheAfter ensures RouteOf(cacheAfter[n]) in RoutesOf(grown) { assert n in grown; }
  }

  /** A route that is the cache's while it is there, or becomes it, is so after the tick. */
  lemma TakenHolds(owner: RouteKey -> Name, base: Routes, current: Name, t: Tick, cache: Infos, routes: Routes,
                   cacheAfter: Infos, routesAfter: Routes, k: RouteKey)
    requires Ticked(current, t.cluster, cache, routes, t.added, t.removed, cacheAfter, routesAfter)
    requires Owns(owner, base, cache) && Owns(owner, base, t.cluster)
    requires k in RoutesAmong(t.cluster, t.added) || (k in routes ==> k in RoutesOf(cache))
    ensures k in routesAfter ==> k in RoutesOf(cacheAfter)
  {
    hide RouteOf, Grown, RoutesOf, RoutesAmong;
    var grown := Grown(cache, t.cluster, t.added);
    RoutesOfGrown(cache, t.cluster, t.added);
    OwnsGrown(owner, base, cache, t.cluster, t.added);
    RoutesOfFewer(owner, base, grown, t.removed);
  }

  /** The routes a restarted reconciler finds: the unrelated ones, and what its predecessor left. Its
      own cache is empty. */
  ghost predicate Restarted(left: set<RouteKey>, base: Routes, caches: seq<Infos>, tables: seq<Routes>)
    requires |caches| == |tables| > 0
  {
    && caches[0] == map[] && tables[0].Keys == base.Keys + left
    && forall k <- base :: k in tables[0] && tables[0][k] == base[k]
  }

  lemma {:induction false} RestartBounds(owner: RouteKey -> Name, left: set<RouteKey>, base: Routes, current: Name,
                                         ticks: seq<Tick>, caches: seq<Infos>, tables: seq<Routes>, i: nat)
    requires TickRun(current, ticks, caches, tables) && i <= |ticks|
    requires forall t <- ticks :: Owns(owner, base, t.cluster)
    requires Restarted(left, base, caches, tables)
    ensures AccountedBut(left, base, tables[i], caches[i]) && Owns(owner, base, caches[i]) && current !in caches[i]
  {
    hide RouteOf, Ticked;
    if i > 0 {
      RestartBounds(owner, left, base, current, ticks, caches, tables, i - 1);
      var t := ticks[i - 1];
      assert t in ticks;
      TickAccountsBut(owner, left, base, current, t.cluster, caches[i - 1], tables[i - 1], t.added, t.removed,
          caches[i], tables[i]);
    }
  }

  /** One leftover: it is accounted for exactly if a node with its route was ever cached; until then it
      is there and is no node's. */
  lemma {:induction false} LeftoverExact(owner: RouteKey -> Name, left: set<RouteKey>, base: Routes, current: Name,
                                         ticks: seq<Tick>, caches: seq<Infos>, tables: seq<Routes>, i: nat, k: RouteKey)
    requires TickRun(current, ticks, caches, tables) && i <= |ticks|
    requires forall t <- ticks :: Owns(owner, base, t.cluster)
    requires Restarted(left, base, caches, tables) && k in left
    ensures (k in tables[i] ==> k in RoutesOf(caches[i])) <==> Taken(ticks, i, k)
    ensures !Taken(ticks, i, k) ==> k in tables[i] && k !in RoutesOf(caches[i])
  {
    hide RouteOf, Ticked, Taken, RoutesAmong;
    if i == 0 {
      assert !Taken(ticks, 0, k) by { NoneTaken(ticks, k); }
    } else {
      LeftoverExact(owner, left, base, current, ticks, caches, tables, i - 1, k);
      RestartBounds(owner, left, base, current, ticks, caches, tables, i - 1);
      var t := ticks[i - 1];
      assert t in ticks;
      TakenMore(ticks, i, k);
      if Taken(ticks, i, k) {
        TakenHolds(owner, base, current, t, caches[i - 1], tables[i - 1], caches[i], tables[i], k);
      } else {
        UntakenStays(current, t, caches[i - 1], tables[i - 1], caches[i], tables[i], k);
      }
    }
  }

  lemma NoneTaken(ticks: seq<Tick>, k: RouteKey)
    ensures !Taken(ticks, 0, k)
  {
  }

  /** A restarted reconciler finds the routes of its predecessor. Over every run, whatever fails, the
      account is exact up to those leftovers, and it is exact if and only if a node with its route was
      cached, at some tick, for every one of them. */
  lemma RestartAccounts(owner: RouteKey -> Name, left: set<RouteKey>, base: Routes, current: Name,
                        ticks: seq<Tick>, caches: seq<Infos>, tables: seq<Routes>, i: nat)
    requires TickRun(current, ticks, caches, tables) && i <= |ticks|
    requires forall t <- ticks :: Owns(owner, base, t.cluster)
    requires Restarted(left, base, caches, tables)
    ensures AccountedBut(left, base, tables[i], caches[i]) && Owns(owner, base, caches[i]) && current !in caches[i]
    ensures forall k <- left :: (k in tables[i] ==> k in RoutesOf(caches[i])) <==> Taken(ticks, i, k)
    ensures Accounted(base, tables[i], caches[i]) <==> forall k <- left :: k in base || Taken(ticks, i, k)
  {
    hide RouteOf, Ticked, Taken, RoutesOf;
    RestartBounds(owner, left, base, current, ticks, caches, tables, i);
    forall k <- left
      ensures (k in tables[i] ==> k in RoutesOf(caches[i])) <==> Taken(ticks, i, k)
    {
      LeftoverExact(owner, left, base, current, ticks, caches, tables, i, k);
    }
  }

  // What the condition is for failure-free ticks, in terms of the snapshots and the stores.

  /** Every tick of the run is failure-free and sees the store of its number. */
  ghost predicate Clean(current: Name, ticks: seq<Tick>, stores: seq<map<string, string>>, caches: seq<Infos>)
    requires |caches| == |ticks| + 1
  {
    && |stores| == |ticks|
    && forall i | 0 <= i < |ticks| ::
         Complete(stores[i], current, ticks[i].cluster, caches[i], ticks[i].added, ticks[i].removed)
  }

  /** The cache after `i` failure-free ticks of a restarted reconciler. */
  ghost function CacheAfter(current: Name, ticks: seq<Tick>, stores: seq<map<string, string>>, i: nat): Infos
    requires i <= |ticks| == |stores|
  {
    if i == 0 then map[]
    else Settled(stores[i - 1], ticks[i - 1].cluster, current, CacheAfter(current, ticks, stores, i - 1))
  }

  lemma {:induction false} CleanCaches(current: Name, ticks: seq<Tick>, stores: seq<map<string, string>>,
                                       caches: seq<Infos>, tables: seq<Routes>, i: nat)
    requires TickRun(current, ticks, caches, tables) && Clean(current, ticks, stores, caches)
    requires caches[0] == map[] && i <= |ticks|
    ensures caches[i] == CacheAfter(current, ticks, stores, i)
  {
    hide Ticked, Complete, Settled;
    if i > 0 {
      CleanCaches(current, ticks, stores, caches, tables, i - 1);
      var t := ticks[i - 1];
      TickSettles(stores[i - 1], current, t.cluster, caches[i - 1], tables[i - 1], t.added, t.removed, caches[i],
          tables[i]);
    }
  }

  /** A node of a snapshot other than this one, with this route, while both nodes are persisted. */
  ghost predicate Shown(current: Name, cluster: Infos, kv: map<string, string>, k: RouteKey) {
    exists n: Name ::
      n in cluster && n != current && RouteOf(cluster[n]) == k && Persisted(kv, current) && Persisted(kv, n)
  }

  /** A node never changes its route from one snapshot to another. */
  ghost predicate Steady(ticks: seq<Tick>) {
    forall s <- ticks, t <- ticks :: SameRoutes(s.cluster, t.cluster)
  }

  ghost predicate SameRoutes(a: Infos, b: Infos) {
    forall n: Name | n in a && n in b :: RouteOf(a[n]) == RouteOf(b[n])
  }

  /** A cached node has the route some snapshot gave it. */
  lemma {:induction false} CachedWasTaken(current: Name, ticks: seq<Tick>, caches: seq<Infos>, tables: seq<Routes>,
                                          i: nat, n: Name)
    requires TickRun(current, ticks, caches, tables) && caches[0] == map[] && i <= |ticks| && n in caches[i]
    ensures Taken(ticks, i, RouteOf(caches[i][n]))
    ensures exists t <- ticks :: n in t.cluster && RouteOf(t.cluster[n]) == RouteOf(caches[i][n])
  {
    hide RouteOf;
    var t := ticks[i - 1];
    assert Ticked(current, t.cluster, caches[i - 1], tables[i - 1], t.added, t.removed, caches[i], tables[i]);
    assert t in ticks;
    if n in caches[i - 1] {
      CachedWasTaken(current, ticks, caches, tables, i - 1, n);
      TakenMore(ticks, i, RouteOf(caches[i][n]));
    } else {
      assert RouteOf(t.cluster[n]) in RoutesAmong(t.cluster, t.added);
      TakenMore(ticks, i, RouteOf(caches[i][n]));
    }
  }

  /** Failure-free, a leftover was taken over exactly if some tick had a node with its route to cache:
      persisted, as this node was, and not cached already. The caches are themselves those the
      snapshots and stores give. When no node changes its route, being shown is enough. */
  lemma {:induction false} TakenExact(current: Name, ticks: seq<Tick>, stores: seq<map<string, string>>,
                                      caches: seq<Infos>, tables: seq<Routes>, i: nat, k: RouteKey)
    requires TickRun(current, ticks, caches, tables) && Clean(current, ticks, stores, caches)
    requires caches[0] == map[] && i <= |ticks|
    ensures Taken(ticks, i, k) <==> exists j | 0 <= j < i ::
      k in RoutesAmong(ticks[j].cluster,
                       Joining(stores[j], current, ticks[j].cluster, CacheAfter(current, ticks, stores, j)))
    ensures Steady(ticks) ==>
      (Taken(ticks, i, k) <==> exists j | 0 <= j < i :: Shown(current, ticks[j].cluster, stores[j], k))
  {
    hide RouteOf, Persisted, Ticked;
    forall j | 0 <= j < i
      ensures ticks[j].added == Joining(stores[j], current, ticks[j].cluster, CacheAfter(current, ticks, stores, j))
      ensures k in RoutesAmong(ticks[j].cluster, ticks[j].added) ==> Shown(current, ticks[j].cluster, stores[j], k)
    {
      CleanCaches(current, ticks, stores, caches, tables, j);
    }
    if Steady(ticks) {
      forall j | 0 <= j < i && Shown(current, ticks[j].cluster, stores[j], k)
        ensures Taken(ticks, i, k)
      {
        ShownIsTaken(current, ticks, stores, caches, tables, i, j, k);
      }
    }
  }

  lemma ShownIsTaken(current: Name, ticks: seq<Tick>, stores: seq<map<string, string>>, caches: seq<Infos>,
                     tables: seq<Routes>, i: nat, j: nat, k: RouteKey)
    requires TickRun(current, ticks, caches, tables) && Clean(current, ticks, stores, caches) && Steady(ticks)
    requires caches[0] == map[] && j < i <= |ticks| && Shown(current, ticks[j].cluster, stores[j], k)
    ensures Taken(ticks, i, k)
  {
    hide RouteOf, Persisted, Ticked, Shown;
    var t := ticks[j];
    var n := ShownNode(current, t.cluster, stores[j], k);
    if n in caches[j] {
      CachedWasTaken(current, ticks, caches, tables, j, n);
      assert t in ticks;
      var s :| s in ticks && n in s.cluster && RouteOf(s.cluster[n]) == RouteOf(caches[j][n]);
      assert SameRoutes(s.cluster, t.cluster);
    } else {
      assert n in t.added;
      assert k in RoutesAmong(t.cluster, t.added);
    }
  }

  lemma ShownNode(current: Name, cluster: Infos, kv: map<string, string>, k: RouteKey) returns (n: Name)
    requires Shown(current, cluster, kv, k)
    ensures n in cluster && n != current && RouteOf(cluster[n]) == k && Persisted(kv, current) && Persisted(kv, n)
  {
    hide RouteOf, Persisted;
    n :| n in cluster && n != current && RouteOf(cluster[n]) == k && Persisted(kv, current) && Persisted(kv, n);
  }

  /** The route of a node that left the cache is not there. */
  lemma RemovedGone(current: Name, cluster: Infos, cache: Infos, routes: Routes, added: set<Name>, removed: set<Name>,
                    cacheAfter: Infos, routesAfter: Routes)
    requires Ticked(current, cluster, cache, routes, added, removed, cacheAfter, routesAfter)
    ensures forall n <- cache | n !in cacheAfter ::
      !HasRoute(routesAfter, cache[n].podCidr, cache[n].internalIp, "")
  {
    var grown := Grown(cache, cluster, added);
    forall n <- cache | n !in cacheAfter
      ensures RouteOf(cache[n]) !in routesAfter
    {
      assert n in removed && grown[n] == cache[n];
      assert RouteOf(grown[n]) in RoutesAmong(grown, removed);
    }
  }

  /** No two nodes have the same address. */
  ghost predicate Apart(a: Infos, b: Infos) {
    forall m <- a, n <- b | m != n :: a[m].internalIp != b[n].internalIp
  }

  /** The podCIDR of every node is routed via the node's address. */
  ghost predicate AllRouted(routes: Routes, infos: Infos) {
    forall n <- infos :: HasRoute(routes, infos[n].podCidr, infos[n].internalIp, "")
  }

  /** The cached nodes are routed, and no two nodes have the same address. */
  ghost predicate Routable(cluster: Infos, cache: Infos, routes: Routes) {
    AllRouted(routes, cache) && Apart(cache, cache) && Apart(cache, cluster) && Apart(cluster, cluster)
  }

  /** The route of every cached node is there, if those of the cached nodes were before. */
  lemma CachedRouted(current: Name, cluster: Infos, cache: Infos, routes: Routes, added: set<Name>, removed: set<Name>,
                     cacheAfter: Infos, routesAfter: Routes)
    requires Ticked(current, cluster, cache, routes, added, removed, cacheAfter, routesAfter)
    requires Routable(cluster, cache, routes) && forall n <- cluster :: cluster[n].internalIp != ""
    ensures AllRouted(routesAfter, cacheAfter)
  {
    var grown := Grown(cache, cluster, added);
    forall n <- cacheAfter
      ensures RouteOf(cacheAfter[n]) in routesAfter
    {
      assert n in grown && n !in removed;
      if n !in cache { assert RouteOf(cluster[n]) in RoutesAmong(cluster, added); }
      forall m <- removed | m in grown ensures RouteOf(grown[m]) != RouteOf(grown[n]) {}
    }
  }

  // ---------------------------------------------------------------- convergence

  /** A failure-free tick settles the cache; the order in which the maps are walked has no say. */
  lemma TickSettles(kv: map<string, string>, current: Name, cluster: Infos, cache: Infos, routes: Routes,
                    added: set<Name>, removed: set<Name>, cacheAfter: Infos, routesAfter: Routes)
    requires Ticked(current, cluster, cache, routes, added, removed, cacheAfter, routesAfter)
    requires Complete(kv, current, cluster, cache, added, removed)
    ensures cacheAfter == Settled(kv, cluster, current, cache)
    ensures routesAfter.Keys == routes.Keys + RoutesAmong(cluster, Joining(kv, current, cluster, cache))
                              - RoutesAmong(Grown(cache, cluster, Joining(kv, current, cluster, cache)), removed)
  {
    hide RouteOf, Persisted, RoutesAmong;
  }

  /** The cache holds the nodes, cached before or told of, whose subnet text is stored, while this node's
      is; with the data they were cached with, or the cluster's. */
  ghost predicate CachedAsStored(kv: map<string, string>, current: Name, cluster: Infos, before: Infos, cache: Infos) {
    forall n: Name ::
      && (n in cache <==>
          && (n in before || (n in cluster && n != current))
          && Read(kv, "/ohno/subnets/" + current) != "" && Read(kv, "/ohno/subnets/" + n) != "")
      && (n in cache && n in before ==> cache[n] == before[n])
      && (n in cache && n !in before ==> n in cluster && cache[n] == cluster[n])
  }

  lemma SettledAsStored(kv: map<string, string>, current: Name, cluster: Infos, cache: Infos)
    ensures CachedAsStored(kv, current, cluster, cache, Settled(kv, cluster, current, cache))
  {
    hide KeyText, Read;
    KeySpelling(NodeSubnet(current));
    forall n: Name ensures Persisted(kv, n) <==> Read(kv, "/ohno/subnets/" + n) != "" { KeySpelling(NodeSubnet(n)); }
  }

  /** A second tick on the same snapshot changes nothing. */
  lemma SecondTickIdle(kv: map<string, string>, current: Name, cluster: Infos, first: Infos, routes: Routes,
                       added: set<Name>, removed: set<Name>, cacheAfter: Infos, routesAfter: Routes)
    requires var cache := Settled(kv, cluster, current, first);
             && Ticked(current, cluster, cache, routes, added, removed, cacheAfter, routesAfter)
             && Complete(kv, current, cluster, cache, added, removed)
    ensures cacheAfter == Settled(kv, cluster, current, first) && routesAfter == routes
  {
    hide RouteOf, Persisted;
    var cache := Settled(kv, cluster, current, first);
    assert added == {};
    GrownNone(cache, cluster);
    assert removed == {};
  }

  lemma GrownNone(cache: Infos, cluster: Infos)
    ensures Grown(cache, cluster, {}) == cache
  {
  }

  lemma NoRoutes(infos: Infos)
    ensures RoutesAmong(infos, {}) == {}
  {
  }

  lemma JoinersListed(kv: map<string, string>, current: Name, cluster: Infos, cache: Infos)
    ensures Joining(kv, current, cluster, cache) - cluster.Keys == {}
  {
  }

  lemma JoinsExact(kv: map<string, string>, current: Name, cluster: Infos, cache: Infos, n: Name)
    requires n in cluster
    ensures n in Joining(kv, current, cluster, cache) <==>
      Persisted(kv, current) && n != current && n !in cache && Persisted(kv, n)
  {
  }

  lemma GrownMore(cache: Infos, cluster: Infos, added: set<Name>, n: Name)
    requires n in cluster
    ensures Grown(cache, cluster, added + {n}) == Grown(cache, cluster, added)[n := cluster[n]]
    ensures n !in added && n !in cache ==> n !in Grown(cache, cluster, added)
  {
  }

  lemma GrownKeys(cache: Infos, cluster: Infos, added: set<Name>)
    requires added <= cluster.Keys
    ensures Grown(cache, cluster, added).Keys == cache.Keys + added
  {
  }

  lemma OneMore(infos: Infos, names: set<Name>, n: Name)
    requires n in infos
    ensures RoutesAmong(infos, names + {n}) == RoutesAmong(infos, names) + {RouteOf(infos[n])}
  {
  }

  class HostGw {
    const ipam: Ipam
    const nic: Nic
    var cache: Infos

    constructor (ipam: Ipam, nic: Nic)
      ensures this.ipam == ipam && this.nic == nic && cache == map[]
    {
      this.ipam, this.nic, cache := ipam, nic, map[];
    }

    /** Probes need a next hop. */
    ghost predicate Valid()
      reads this
    {
      forall n <- cache :: cache[n].internalIp != ""
    }

    /** One node of the cluster: its route is installed if it is persisted and not cached, and it is
        cached if that succeeds. */
    method Install(current: Name, name: Name, info: NodeInfo)
      requires Valid() && info.internalIp != ""
      modifies this`cache, nic`routes, nic.kernel`routes
      ensures Valid()
      ensures cache == old(cache) || (name != current && name !in old(cache) && cache == old(cache)[name := info])
      ensures cache == old(cache) ==> nic.kernel.routes == old(nic.kernel.routes)
      ensures cache != old(cache) ==> HasRoute(nic.kernel.routes, info.podCidr, info.internalIp, "")
      ensures cache != old(cache) ==>
        var k := RouteOf(info);
        && k in nic.kernel.routes
        && (nic.kernel.routes == old(nic.kernel.routes)
           || (k !in old(nic.kernel.routes) && nic.kernel.routes == old(nic.kernel.routes)[k := nic.kernel.routes[k]]))
      ensures ipam.client.reliableReads && nic.kernel.addsSucceed ==>
        cache == if name != current && name !in old(cache) && Persisted(ipam.client.kv, name)
                 then old(cache)[name := info] else old(cache)
    {
      if name == current { return; }
      var _, subnet := ipam.GetSubnet(name);
      if subnet != "" && name !in cache {
        var ok := nic.AddRoute(Route(info.podCidr, info.internalIp, ""));
        if ok { cache := cache[name := info]; }
      }
    }

    /** One node of the cache: its route is deleted if it or this node is not persisted, and it is
        erased if that succeeds. */
    method Remove(subnetCurrent: string, name: Name)
      requires Valid() && name in cache
      modifies this`cache, nic`routes, nic.kernel`routes
      ensures Valid()
      ensures cache == old(cache) || cache == old(cache) - {name}
      ensures cache == old(cache) ==> nic.kernel.routes == old(nic.kernel.routes)
      ensures cache != old(cache) ==> nic.kernel.routes == old(nic.kernel.routes) - {RouteOf(old(cache)[name])}
      ensures name !in cache ==>
        !HasRoute(nic.kernel.routes, old(cache)[name].podCidr, old(cache)[name].internalIp, "")
      ensures ipam.client.reliableReads && nic.kernel.delsSucceed ==>
        cache == if subnetCurrent == "" || !Persisted(ipam.client.kv, name) then old(cache) - {name} else old(cache)
    {
      var info := cache[name];
      var _, subnet := ipam.GetSubnet(name);
      if subnetCurrent == "" || subnet == "" {
        var ok := nic.DelRoute(info.podCidr, info.internalIp, "");
        if ok { cache := cache - {name}; }
      }
    }

    /** The loop over the cluster. */
    method InstallAll(current: Name, cluster: Infos) returns (ghost added: set<Name>)
      requires Valid() && forall n <- cluster :: cluster[n].internalIp != ""
      modifies this`cache, nic`routes, nic.kernel`routes
      ensures Valid()
      ensures added <= cluster.Keys - {current} - old(cache).Keys && cache == Grown(old(cache), cluster, added)
      ensures nic.kernel.routes.Keys == old(nic.kernel.routes).Keys + RoutesAmong(cluster, added)
      ensures forall k <- old(nic.kernel.routes) ::
        k in nic.kernel.routes && nic.kernel.routes[k] == old(nic.kernel.routes)[k]
      ensures ipam.client.reliableReads && nic.kernel.addsSucceed && Persisted(ipam.client.kv, current) ==>
        added == Joining(ipam.client.kv, current, cluster, old(cache))
    {
      hide Persisted, RouteOf, Read, Grown, Joining, RoutesAmong;
      added := {};
      GrownNone(cache, cluster);
      NoRoutes(cluster);
      JoinersListed(ipam.client.kv, current, cluster, cache);
      var todo := cluster.Keys;
      while todo != {}
        invariant Valid() && todo <= cluster.Keys
        invariant added <= cluster.Keys - {current} - old(cache).Keys - todo
        invariant cache == Grown(old(cache), cluster, added)
        invariant nic.kernel.routes.Keys == old(nic.kernel.routes).Keys + RoutesAmong(cluster, added)
        invariant forall k <- old(nic.kernel.routes) ::
          k in nic.kernel.routes && nic.kernel.routes[k] == old(nic.kernel.routes)[k]
        invariant ipam.client.reliableReads && nic.kernel.addsSucceed && Persisted(ipam.client.kv, current) ==>
          added == Joining(ipam.client.kv, current, cluster, old(cache)) - todo
      {
        var name: Name :| name in todo;
        ghost var before := cache;
        GrownKeys(old(cache), cluster, added);
        JoinsExact(ipam.client.kv, current, cluster, old(cache), name);
        Install(current, name, cluster[name]);
        if cache != before {
          OneMore(cluster, added, name);
          GrownMore(old(cache), cluster, added, name);
          added := added + {name};
        }
        todo := todo - {name};
      }
    }

    /** The loop over the cache. */
    method RemoveAll(subnetCurrent: string) returns (ghost removed: set<Name>)
      requires Valid()
      modifies this`cache, nic`routes, nic.kernel`routes
      ensures Valid()
      ensures removed <= old(cache).Keys && cache == old(cache) - removed
      ensures nic.kernel.routes.Keys == old(nic.kernel.routes).Keys - RoutesAmong(old(cache), removed)
      ensures forall k <- nic.kernel.routes ::
        k in old(nic.kernel.routes) && nic.kernel.routes[k] == old(nic.kernel.routes)[k]
      ensures ipam.client.reliableReads && nic.kernel.delsSucceed ==>
        removed == set n | n in old(cache) && (subnetCurrent == "" || !Persisted(ipam.client.kv, n))
    {
      hide Persisted, RouteOf, Read;
      removed := {};
      var todo := cache.Keys;
      while todo != {}
        invariant Valid() && todo <= cache.Keys
        invariant removed <= old(cache).Keys - todo && cache == old(cache) - removed
        invariant nic.kernel.routes.Keys == old(nic.kernel.routes).Keys - RoutesAmong(old(cache), removed)
        invariant forall k <- nic.kernel.routes ::
          k in old(nic.kernel.routes) && nic.kernel.routes[k] == old(nic.kernel.routes)[k]
        invariant ipam.client.reliableReads && nic.kernel.delsSucceed ==>
          removed == set n | n in old(cache) && n !in todo && (subnetCurrent == "" || !Persisted(ipam.client.kv, n))
      {
        var name: Name :| name in todo;
        ghost var before := cache;
        Remove(subnetCurrent, name);
        if cache != before {
          OneMore(old(cache), removed, name);
          removed := removed + {name};
        }
        todo := todo - {name};
      }
    }

    /** One tick: `eventHandler`. */
    method EventHandler(current: Name, cluster: Infos) returns (ghost added: set<Name>, ghost removed: set<Name>)
      requires Valid() && forall n <- cluster :: cluster[n].internalIp != ""
      modifies this`cache, nic`routes, nic.kernel`routes
      ensures Valid()
      ensures Ticked(current, cluster, old(cache), old(nic.kernel.routes), added, removed, cache, nic.kernel.routes)
      ensures forall n <- old(cache) | n !in cache ::
        !HasRoute(nic.kernel.routes, old(cache)[n].podCidr, old(cache)[n].internalIp, "")
      ensures Routable(cluster, old(cache), old(nic.kernel.routes)) ==> AllRouted(nic.kernel.routes, cache)
      ensures ipam.client.reliableReads && nic.kernel.addsSucceed && nic.kernel.delsSucceed ==>
        && Complete(ipam.client.kv, current, cluster, old(cache), added, removed)
        && CachedAsStored(ipam.client.kv, current, cluster, old(cache), cache)
    {
      hide Read, KeyText, RouteOf, Grown, Routable, AllRouted, CachedAsStored, Settled;
      GrownNone(cache, cluster);
      var _, subnetCurrent := ipam.GetSubnet(current);
      assert ipam.client.reliableReads ==> (subnetCurrent != "" <==> Persisted(ipam.client.kv, current));
      added := {};
      if subnetCurrent != "" {
        added := InstallAll(current, cluster);
      }
      removed := RemoveAll(subnetCurrent);
      if ipam.client.reliableReads && nic.kernel.addsSucceed && nic.kernel.delsSucceed {
        TickSettles(ipam.client.kv, current, cluster, old(cache), old(nic.kernel.routes), added, removed, cache,
            nic.kernel.routes);
        SettledAsStored(ipam.client.kv, current, cluster, old(cache));
      }
      if Routable(cluster, old(cache), old(nic.kernel.routes)) {
        CachedRouted(current, cluster, old(cache), old(nic.kernel.routes), added, removed, cache, nic.kernel.routes);
      }
      RemovedGone(current, cluster, old(cache), old(nic.kernel.routes), added, removed, cache, nic.kernel.routes);
    }
  }

  /** Ticks one after the other, with the cluster each of them is told of. Between two ticks other
      processes write the store. */
  method Ticks(gw: HostGw, current: Name, clusters: seq<Infos>, stores: seq<map<string, string>>)
    returns (ghost ticks: seq<Tick>, ghost caches: seq<Infos>, ghost tables: seq<Routes>)
    requires gw.Valid() && |stores| == |clusters|
    requires forall c: Infos, n: Name | c in clusters && n in c :: c[n].internalIp != ""
    modifies gw`cache, gw.nic`routes, gw.nic.kernel`routes, gw.ipam.client`kv
    ensures gw.Valid() && TickRun(current, ticks, caches, tables)
    ensures |ticks| == |clusters| && forall i | 0 <= i < |ticks| :: ticks[i].cluster == clusters[i]
    ensures caches[0] == old(gw.cache) && tables[0] == old(gw.nic.kernel.routes)
    ensures caches[|clusters|] == gw.cache && tables[|clusters|] == gw.nic.kernel.routes
    ensures gw.ipam.client.reliableReads && gw.nic.kernel.addsSucceed && gw.nic.kernel.delsSucceed ==>
      Clean(current, ticks, stores, caches)
  {
    hide Ticked, Complete, CachedAsStored, Routable, AllRouted, HasRoute;
    ticks, caches, tables := [], [gw.cache], [gw.nic.kernel.routes];
    for i := 0 to |clusters|
      invariant gw.Valid() && |ticks| == i && TickRun(current, ticks, caches, tables)
      invariant forall j | 0 <= j < i :: ticks[j].cluster == clusters[j]
      invariant caches[0] == old(gw.cache) && tables[0] == old(gw.nic.kernel.routes)
      invariant caches[i] == gw.cache && tables[i] == gw.nic.kernel.routes
      invariant gw.ipam.client.reliableReads && gw.nic.kernel.addsSucceed && gw.nic.kernel.delsSucceed ==>
        forall j | 0 <= j < i ::
          Complete(stores[j], current, ticks[j].cluster, caches[j], ticks[j].added, ticks[j].removed)
    {
      gw.ipam.client.kv := stores[i];
      assert clusters[i] in clusters;
      ghost var added, removed;
      added, removed := gw.EventHandler(current, clusters[i]);
      TickRunMore(current, ticks, caches, tables, Tick(clusters[i], added, removed), gw.cache, gw.nic.kernel.routes);
      ticks, caches, tables :=
        ticks + [Tick(clusters[i], added, removed)], caches + [gw.cache], tables + [gw.nic.kernel.routes];
    }
  }

  lemma TickRunMore(current: Name, ticks: seq<Tick>, caches: seq<Infos>, tables: seq<Routes>, t: Tick, cache: Infos,
                    routes: Routes)
    requires TickRun(current, ticks, caches, tables)
    requires Ticked(current, t.cluster, caches[|ticks|], tables[|ticks|], t.added, t.removed, cache, routes)
    ensures TickRun(current, ticks + [t], caches + [cache], tables + [routes])
  {
    hide Ticked;
  }

  /** Two failure-free ticks on one snapshot: the first settles the cache, the second does nothing. */
  method TickTwice(gw: HostGw, current: Name, cluster: Infos) returns (ghost cache: Infos, ghost routes: Routes)
    requires gw.Valid() && forall n <- cluster :: cluster[n].internalIp != ""
    requires gw.ipam.client.reliableReads && gw.nic.kernel.addsSucceed && gw.nic.kernel.delsSucceed
    modifies gw`cache, gw.nic`routes, gw.nic.kernel`routes
    ensures cache == Settled(gw.ipam.client.kv, cluster, current, old(gw.cache))
    ensures gw.cache == cache && gw.nic.kernel.routes == routes
  {
    hide Ticked, Complete, Settled, CachedAsStored, Routable, AllRouted, HasRoute;
    ghost var before, added, removed := gw.cache, {}, {};
    ghost var kv, table := gw.ipam.client.kv, gw.nic.kernel.routes;
    added, removed := gw.EventHandler(current, cluster);
    cache, routes := gw.cache, gw.nic.kernel.routes;
    TickSettles(kv, current, cluster, before, table, added, removed, cache, routes);
    added, removed := gw.EventHandler(current, cluster);
    SecondTickIdle(kv, current, cluster, before, routes, added, removed, gw.cache, gw.nic.kernel.routes);
  }

  /** A restart in which a leftover stays: no snapshot has a node with its route any more. However many
      ticks go by, and whatever the stores hold, it is still there, is no cached node's, and spoils the
      account. */
  method LeftoverStays(gw: HostGw, current: Name, clusters: seq<Infos>, stores: seq<map<string, string>>,
                       ghost k: RouteKey)
    requires gw.Valid() && |stores| == |clusters| && gw.cache == map[] && k in gw.nic.kernel.routes
    requires forall c: Infos, n: Name | c in clusters && n in c :: c[n].internalIp != "" && RouteOf(c[n]) != k
    modifies gw`cache, gw.nic`routes, gw.nic.kernel`routes, gw.ipam.client`kv
    ensures k in gw.nic.kernel.routes && k !in RoutesOf(gw.cache)
    ensures !Accounted(old(gw.nic.kernel.routes) - {k}, gw.nic.kernel.routes, gw.cache)
  {
    hide Ticked, RouteOf;
    ghost var ticks, caches, tables;
    ticks, caches, tables := Ticks(gw, current, clusters, stores);
    NeverTaken(current, ticks, caches, tables, |ticks|, k);
  }

  lemma {:induction false} NeverTaken(current: Name, ticks: seq<Tick>, caches: seq<Infos>, tables: seq<Routes>, i: nat,
                                      k: RouteKey)
    requires TickRun(current, ticks, caches, tables) && caches[0] == map[] && k in tables[0] && i <= |ticks|
    requires forall t: Tick, n: Name | t in ticks && n in t.cluster :: RouteOf(t.cluster[n]) != k
    ensures k in tables[i] && k !in RoutesOf(caches[i])
  {
    hide Ticked, RouteOf;
    if i > 0 {
      NeverTaken(current, ticks, caches, tables, i - 1, k);
      assert ticks[i - 1] in ticks;
      UntakenStays(current, ticks[i - 1], caches[i - 1], tables[i - 1], caches[i], tables[i], k);
    }
  }

  /** Ticks of a reconciler that starts with no routes of the cluster's: at the end the podCIDR of every
      cached node is routed via that node, and nothing else is routed that was not before. */
  method RoutedTicks(gw: HostGw, current: Name, clusters: seq<Infos>, stores: seq<map<string, string>>,
                     ghost owner: RouteKey -> Name)
    requires gw.Valid() && |stores| == |clusters| && gw.cache == map[]
    requires forall c: Infos, n: Name | c in clusters && n in c :: c[n].internalIp != ""
    requires forall c <- clusters :: Owns(owner, gw.nic.kernel.routes, c)
    modifies gw`cache, gw.nic`routes, gw.nic.kernel`routes, gw.ipam.client`kv
    ensures forall n <- gw.cache :: HasRoute(gw.nic.kernel.routes, gw.cache[n].podCidr, gw.cache[n].internalIp, "")
    ensures forall dest: string, via: string | dest != "" && dest != "default"
            && RouteKey(dest, via) in gw.nic.kernel.routes ::
      RouteKey(dest, via) in old(gw.nic.kernel.routes)
      || exists n <- gw.cache :: gw.cache[n].podCidr == dest && gw.cache[n].internalIp == via
  {
    hide Ticked, Owns, HasRoute, Accounted;
    ghost var base := gw.nic.kernel.routes;
    ghost var ticks, caches, tables;
    ticks, caches, tables := Ticks(gw, current, clusters, stores);
    forall t <- ticks ensures Owns(owner, base, t.cluster) { OneOf(ticks, clusters, t); }
    RunAccounts(owner, base, current, ticks, caches, tables, |ticks|);
    AccountedRoutes(base, gw.nic.kernel.routes, gw.cache);
  }

  lemma OneOf(ticks: seq<Tick>, clusters: seq<Infos>, t: Tick)
    requires |ticks| == |clusters| && (forall i | 0 <= i < |ticks| :: ticks[i].cluster == clusters[i]) && t in ticks
    ensures t.cluster in clusters
  {
  }
}
