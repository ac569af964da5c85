/** The cluster cache and the service that fills it, as one caller sees them
    (pkg/cluster/cache.go, pkg/cluster/service.go). */
module Clusters {
  import opened Wrappers

  // ----- data -----

  datatype RestConfig = RestConfig(host: string, credentials: string, timeout: int)

  /** A kube client, with the rest config it was built from and a mark telling separate builds apart. */
  datatype Client = Client(builtFrom: RestConfig, serial: nat)

  datatype Config = Config(
    name: string, apiEndpoint: string, restConfig: RestConfig,
    operatorNamespace: string, ownerClusterName: string, labels: map<string, string>)

  datatype CachedCluster = CachedCluster(config: Config, client: Option<Client>, ready: bool)

  /** The ToolchainCluster resource, as far as the cache is concerned. */
  datatype ToolchainCluster = ToolchainCluster(name: string, secretName: string, labels: map<string, string>, ready: bool)

  type Cache = map<string, CachedCluster>

  /** Loading the config of a resource (its secret and kubeconfig) and building a client may both fail. */
  datatype Backend = Backend(
    load: ToolchainCluster -> Result<Config, string>,
    newClient: RestConfig -> Result<Client, string>)

  /** A loaded config carries the name of its resource; a client is built from the config it is given. */
  ghost predicate Lawful(backend: Backend) {
    && (forall c :: backend.load(c).Success? ==> backend.load(c).value.name == c.name)
    && (forall r :: backend.newClient(r).Success? ==> backend.newClient(r).value.builtFrom == r)
  }

  function Lookup(cache: Cache, name: string): Option<CachedCluster> {
    if name in cache then Some(cache[name]) else None
  }

  // ----- one addition -----

  /** The cached client may serve the loaded config again. */
  predicate Reusable(cached: Option<CachedCluster>, config: Config) {
    cached.Some? && cached.value.client.Some? && cached.value.config.restConfig == config.restConfig
  }

  datatype AddError = ConfigNotLoaded(cause: string) | ClientNotBuilt(cause: string) | NoOperatorNamespace

  function Entry(backend: Backend, cache: Cache, cluster: ToolchainCluster): Result<CachedCluster, AddError> {
    match backend.load(cluster)
    case Failure(cause) => Failure(ConfigNotLoaded(cause))
    case Success(config) =>
      var cached := Lookup(cache, cluster.name);
      if !Reusable(cached, config) && backend.newClient(config.restConfig).Failure? then
        Failure(ClientNotBuilt(backend.newClient(config.restConfig).error))
      else if config.operatorNamespace == "" then Failure(NoOperatorNamespace)
      else
        var client := if Reusable(cached, config) then cached.value.client
                      else Some(backend.newClient(config.restConfig).value);
        Success(CachedCluster(config, client, cluster.ready))
  }

  function WithCluster(backend: Backend, cache: Cache, cluster: ToolchainCluster): Cache {
    match Entry(backend, cache, cluster)
    case Success(entry) => cache[entry.config.name := entry]
    case Failure(_) => cache
  }

  function WithClusters(backend: Backend, cache: Cache, clusters: seq<ToolchainCluster>): Cache {
    if clusters == [] then cache
    else
      var n := |clusters| - 1;
      WithCluster(backend, WithClusters(backend, cache, clusters[..n]), clusters[n])
  }

  // ----- the service and the cache -----

  /** What the cache's refresh function works on: the backend, and the list call of this moment. */
  datatype Service = Service(backend: Backend, listing: Result<seq<ToolchainCluster>, string>)

  /** A failed list call is logged and leaves nothing to add. */
  function Items(service: Service): seq<ToolchainCluster> {
    if service.listing.Success? then service.listing.value else []
  }

  function Refreshed(cache: Cache, service: Service): Cache {
    WithClusters(service.backend, cache, Items(service))
  }

  type Condition = CachedCluster -> bool

  predicate MatchesAll(cluster: CachedCluster, conditions: seq<Condition>) {
    forall i :: 0 <= i < |conditions| ==> conditions[i](cluster)
  }

  function Matching(cache: Cache, conditions: seq<Condition>): Cache {
    map name | name in cache && MatchesAll(cache[name], conditions) :: cache[name]
  }

  /** A list without order: each entry of the map once. */
  ghost predicate Lists(entries: seq<CachedCluster>, names: seq<string>, cache: Cache) {
    && |names| == |entries|
    && (forall i :: 0 <= i < |names| ==> names[i] in cache && entries[i] == cache[names[i]])
    && (forall i, j :: 0 <= i < j < |names| ==> names[i] != names[j])
    && (forall name :: name in cache ==> name in names)
  }

  class ToolchainClusterClients {
    // The state of the lock: how many readers hold it, and whether a writer does.
    var readers: nat
    var writer: bool
    var clusters: Cache
    var refreshCache: Option<Service>

    constructor ()
      ensures Unlocked() && clusters == map[] && refreshCache == None
    {
      readers, writer, clusters, refreshCache := 0, false, map[], None;
    }

    ghost predicate Unlocked()
      reads this
    {
      readers == 0 && !writer
    }

    // Each lock call states that the lock is free for it, so a verified caller never waits for itself.

    method RLock()
      requires !writer
      modifies this`readers
      ensures readers == old(readers) + 1
    {
      readers := readers + 1;
    }

    method RUnlock()
      requires readers > 0
      modifies this`readers
      ensures readers == old(readers) - 1
    {
      readers := readers - 1;
    }

    method Lock()
      requires readers == 0 && !writer
      modifies this`writer
      ensures writer
    {
      writer := true;
    }

    method Unlock()
      requires writer
      modifies this`writer
      ensures !writer
    {
      writer := false;
    }

    method AddCachedToolchainCluster(cluster: CachedCluster)
      requires Unlocked()
      modifies this`writer, this`clusters
      ensures Unlocked() && clusters == old(clusters)[cluster.config.name := cluster]
    {
      Lock();
      clusters := clusters[cluster.config.name := cluster];
      Unlock();
    }

    method DeleteCachedToolchainCluster(name: string)
      requires Unlocked()
      modifies this`writer, this`clusters
      ensures Unlocked() && clusters == old(clusters) - {name}
    {
      Lock();
      clusters := clusters - {name};
      Unlock();
    }

    /** A look-up that misses may hand the lock over to a refresh and look again. */
    method GetCachedToolchainCluster(name: string, canRefreshCache: bool) returns (cluster: Option<CachedCluster>)
      requires Unlocked()
      modifies this`readers, this`writer, this`clusters
      ensures Unlocked()
      ensures clusters == if name !in old(clusters) && canRefreshCache && refreshCache.Some?
                          then Refreshed(old(clusters), refreshCache.value) else old(clusters)
      ensures cluster == if name in clusters then Some(clusters[name]) else None
      decreases if canRefreshCache then 3 else 0
    {
      RLock();
      if name !in clusters && canRefreshCache && refreshCache.Some? {
        RUnlock();
        RefreshCache(refreshCache.value);
        RLock();
      }
      cluster := if name in clusters then Some(clusters[name]) else None;
      RUnlock();
    }

    /** addToolchainCluster looks the old entry up without a refresh, since the refresh is what calls it. */
    method AddToolchainCluster(backend: Backend, toolchainCluster: ToolchainCluster) returns (error: Option<AddError>)
      requires Unlocked()
      modifies this`readers, this`writer, this`clusters
      ensures Unlocked()
      ensures clusters == WithCluster(backend, old(clusters), toolchainCluster)
      ensures var entry := Entry(backend, old(clusters), toolchainCluster);
              error == if entry.Failure? then Some(entry.error) else None
      decreases 1
    {
      var loaded := backend.load(toolchainCluster);
      if loaded.Failure? {
        return Some(ConfigNotLoaded(loaded.error));
      }
      var clusterConfig := loaded.value;
      var cached := GetCachedToolchainCluster(toolchainCluster.name, false);
      var cl: Option<Client>;
      if cached.None? || cached.value.client.None? || clusterConfig.restConfig != cached.value.config.restConfig {
        var built := backend.newClient(clusterConfig.restConfig);
        if built.Failure? {
          return Some(ClientNotBuilt(built.error));
        }
        cl := Some(built.value);
      } else {
        cl := cached.value.client;
      }
      var cluster := CachedCluster(clusterConfig, cl, toolchainCluster.ready);
      if cluster.config.operatorNamespace == "" {
        return Some(NoOperatorNamespace);
      }
      AddCachedToolchainCluster(cluster);
      error := None;
    }

    method RefreshCache(service: Service)
      requires Unlocked()
      modifies this`readers, this`writer, this`clusters
      ensures Unlocked() && clusters == Refreshed(old(clusters), service)
      decreases 2
    {
      var items := if service.listing.Success? then service.listing.value else [];
      for i := 0 to |items|
        invariant Unlocked() && clusters == WithClusters(service.backend, old(clusters), items[..i])
      {
        assert items[..i + 1][..i] == items[..i];
        var error := AddToolchainCluster(service.backend, items[i]);
      }
      assert items[..|items|] == items;
    }

    /** Filter: the map is read in an arbitrary order. */
    method GetCachedToolchainClusters(conditions: seq<Condition>) returns (filtered: seq<CachedCluster>, ghost names: seq<string>)
      requires Unlocked()
      modifies this`readers
      ensures Unlocked()
      ensures Lists(filtered, names, Matching(clusters, conditions))
      ensures forall name :: name in names <==>
                name in clusters && forall i :: 0 <= i < |conditions| ==> conditions[i](clusters[name])
    {
      RLock();
      filtered, names := [], [];
      var left := clusters.Keys;
      while left != {}
        invariant left <= clusters.Keys && readers == 1
        invariant forall name :: name in names ==> name !in left
        invariant Lists(filtered, names, Matching(map n | n in clusters && n !in left :: clusters[n], conditions))
        decreases left
      {
        var name :| name in left;
        var cluster := clusters[name];
        var matches := true;
        for i := 0 to |conditions|
          invariant matches ==> forall j :: 0 <= j < i ==> conditions[j](cluster)
        {
          if !conditions[i](cluster) {
            matches := false;
            assert !MatchesAll(cluster, conditions);
            break;
          }
        }
        if matches {
          filtered, names := filtered + [cluster], names + [name];
        }
        left := left - {name};
      }
      assert Matching(map n | n in clusters && n !in left :: clusters[n], conditions) == Matching(clusters, conditions);
      RUnlock();
    }

    /** GetHostCluster: some entry, after a refresh if there was none. */
    method GetHostCluster() returns (host: Option<CachedCluster>)
      requires Unlocked()
      modifies this`readers, this`writer, this`clusters
      ensures Unlocked()
      ensures clusters == if old(clusters) == map[] && refreshCache.Some?
                          then Refreshed(old(clusters), refreshCache.value) else old(clusters)
      ensures host.None? <==> clusters == map[]
      ensures host.Some? ==> exists name :: name in clusters && host.value == clusters[name]
    {
      var found, names := GetCachedToolchainClusters([]);
      assert Matching(clusters, []) == clusters;
      if |found| == 0 {
        assert names == [];
        if refreshCache.Some? {
          RefreshCache(refreshCache.value);
        }
        found, names := GetCachedToolchainClusters([]);
        assert Matching(clusters, []) == clusters;
        if |found| == 0 {
          return None;
        }
      }
      assert names[0] in clusters;
      return Some(found[0]);
    }

    /** GetMemberClusters: the matching entries, after a refresh if there was none. */
    method GetMemberClusters(conditions: seq<Condition>) returns (members: seq<CachedCluster>, ghost names: seq<string>)
      requires Unlocked()
      modifies this`readers, this`writer, this`clusters
      ensures Unlocked()
      ensures clusters == if Matching(old(clusters), conditions) == map[] && refreshCache.Some?
                          then Refreshed(old(clusters), refreshCache.value) else old(clusters)
      ensures Lists(members, names, Matching(clusters, conditions))
    {
      members, names := GetCachedToolchainClusters(conditions);
      if |members| == 0 {
        assert Matching(clusters, conditions) == map[] by {
          assert names == [];
        }
        if refreshCache.Some? {
          RefreshCache(refreshCache.value);
        }
        members, names := GetCachedToolchainClusters(conditions);
      } else {
        assert names[0] in Matching(clusters, conditions);
      }
    }
  }

  // ----- what a refresh does to the map -----

  /** The old entry of a resource's name can serve again: it has a client and the rest config just loaded. */
  ghost predicate Serves(cache: Cache, name: string, restConfig: RestConfig) {
    name in cache && cache[name].client.Some? && cache[name].config.restConfig == restConfig
  }

  /** An addition stores the loaded config and readiness of the resource, with the old client if that serves again
      and a new one otherwise; a failure to load, to build a client or to find an operator namespace, in that
      order, stores nothing. */
  lemma AdditionExactly(backend: Backend, cache: Cache, cluster: ToolchainCluster)
    ensures var after, entry := WithCluster(backend, cache, cluster), Entry(backend, cache, cluster);
            match backend.load(cluster)
            case Failure(cause) => after == cache && entry == Failure(ConfigNotLoaded(cause))
            case Success(config) =>
              if Serves(cache, cluster.name, config.restConfig) then
                if config.operatorNamespace == "" then after == cache && entry == Failure(NoOperatorNamespace)
                else after == cache[config.name := CachedCluster(config, cache[cluster.name].client, cluster.ready)]
              else
                match backend.newClient(config.restConfig)
                case Failure(cause) => after == cache && entry == Failure(ClientNotBuilt(cause))
                case Success(client) =>
                  if config.operatorNamespace == "" then after == cache && entry == Failure(NoOperatorNamespace)
                  else after == cache[config.name := CachedCluster(config, Some(client), cluster.ready)]
  {
  }

  /** A refresh adds the listed resources one after the other, and nothing when they cannot be listed. */
  lemma RefreshExactly(backend: Backend, cache: Cache, cause: string, clusters: seq<ToolchainCluster>, last: ToolchainCluster)
    ensures Refreshed(cache, Service(backend, Failure(cause))) == cache
    ensures Refreshed(cache, Service(backend, Success([]))) == cache
    ensures Refreshed(cache, Service(backend, Success(clusters + [last]))) ==
            WithCluster(backend, Refreshed(cache, Service(backend, Success(clusters))), last)
  {
    assert (clusters + [last])[..|clusters|] == clusters;
  }

  /** A cache entry as every caller may rely on: under its own name, with an operator namespace and a client
      built from a rest config equal to its own. */
  ghost predicate Good(entry: CachedCluster) {
    && entry.config.operatorNamespace != ""
    && entry.client.Some? && entry.client.value.builtFrom == entry.config.restConfig
  }

  ghost predicate GoodCache(cache: Cache) {
    forall name :: name in cache ==> cache[name].config.name == name && Good(cache[name])
  }

  lemma GoodEntry(backend: Backend, cache: Cache, cluster: ToolchainCluster)
    requires Lawful(backend) && GoodCache(cache) && Entry(backend, cache, cluster).Success?
    ensures Entry(backend, cache, cluster).value.config.name == cluster.name
    ensures Good(Entry(backend, cache, cluster).value)
  {
  }

  lemma {:induction false} RefreshKeepsGood(backend: Backend, cache: Cache, clusters: seq<ToolchainCluster>)
    requires Lawful(backend) && GoodCache(cache)
    ensures GoodCache(WithClusters(backend, cache, clusters))
  {
    if clusters != [] {
      var n := |clusters| - 1;
      RefreshKeepsGood(backend, cache, clusters[..n]);
      var before := WithClusters(backend, cache, clusters[..n]);
      if Entry(backend, before, clusters[n]).Success? {
        GoodEntry(backend, before, clusters[n]);
      }
    }
  }

  ghost predicate DistinctNames(clusters: seq<ToolchainCluster>) {
    forall i, j :: 0 <= i < j < |clusters| ==> clusters[i].name != clusters[j].name
  }

  /** What a resource yields depends on the entry of its own name only. */
  lemma SameEntry(backend: Backend, cache: Cache, cache': Cache, cluster: ToolchainCluster)
    requires Lookup(cache, cluster.name) == Lookup(cache', cluster.name)
    ensures Entry(backend, cache, cluster) == Entry(backend, cache', cluster)
  {
  }

  /** A refresh over distinctly named resources is the old map overridden, resource by resource, with the
      entry the resource yields against the OLD map; a resource that fails leaves the old entry in place. */
  lemma {:induction false} RefreshOverridesTheOldMap(backend: Backend, cache: Cache, clusters: seq<ToolchainCluster>)
    requires Lawful(backend) && DistinctNames(clusters)
    ensures var after := WithClusters(backend, cache, clusters);
            && (forall i :: 0 <= i < |clusters| ==>
                  Lookup(after, clusters[i].name) ==
                  var entry := Entry(backend, cache, clusters[i]);
                  if entry.Success? then Some(entry.value) else Lookup(cache, clusters[i].name))
            && (forall name :: (forall i :: 0 <= i < |clusters| ==> clusters[i].name != name) ==>
                  Lookup(after, name) == Lookup(cache, name))
  {
    if clusters != [] {
      var n := |clusters| - 1;
      var before := WithClusters(backend, cache, clusters[..n]);
      RefreshOverridesTheOldMap(backend, cache, clusters[..n]);
      assert Lookup(before, clusters[n].name) == Lookup(cache, clusters[n].name);
      SameEntry(backend, cache, before, clusters[n]);
      OneClusterAdded(backend, before, clusters[n]);
      assert forall i :: 0 <= i < n ==> clusters[..n][i] == clusters[i];
    }
  }

  lemma OneClusterAdded(backend: Backend, cache: Cache, cluster: ToolchainCluster)
    requires Lawful(backend)
    ensures forall name :: name != cluster.name ==> Lookup(WithCluster(backend, cache, cluster), name) == Lookup(cache, name)
    ensures var entry := Entry(backend, cache, cluster);
            Lookup(WithCluster(backend, cache, cluster), cluster.name) ==
            if entry.Success? then Some(entry.value) else Lookup(cache, cluster.name)
  {
  }

  /** A refreshing look-up of a name succeeds exactly when the name is in the overridden map. */
  lemma LookupSucceedsOnTheMergedMap(cache: Cache, service: Service, name: string)
    requires Lawful(service.backend)
    ensures var after := if name !in cache then Refreshed(cache, service) else cache;
            Lookup(after, name).Some? <==> name in Refreshed(cache, service)
  {
    RefreshForgetsNothing(service.backend, cache, Items(service));
  }

  lemma {:induction false} RefreshForgetsNothing(backend: Backend, cache: Cache, clusters: seq<ToolchainCluster>)
    ensures cache.Keys <= WithClusters(backend, cache, clusters).Keys
  {
    if clusters != [] {
      RefreshForgetsNothing(backend, cache, clusters[..|clusters| - 1]);
    }
  }
}
