/** From a configuration file to the pools the balancer and the executor work on. */
module Loading {
  import Config
  import opened Upstreams
  import opened Balancer

  function RoleOf(role: string): Role { if role == Config.ROLE_FALLBACK then Fallback else Main }

  /** The upstreams a group's entries describe, in their order. */
  predicate Built(us: seq<Upstream>, entries: seq<Config.UpstreamConfig>) {
    |us| == |entries| && forall j :: 0 <= j < |us| ==>
      && us[j].name == entries[j].name && us[j].weight == entries[j].weight
      && us[j].role == RoleOf(entries[j].role) && us[j].hasRPC == (entries[j].rpcURL != "")
  }

  /** Entry by entry of the file: its name, its weight or else 1, main unless it says fallback, and RPC if it has a URL for it. */
  ghost predicate Describes(us: seq<Upstream>, entries: seq<Config.UpstreamConfig>) {
    |us| == |entries| && forall j :: 0 <= j < |us| ==>
      && us[j].name == entries[j].name
      && us[j].weight == (if entries[j].weight == 0 then 1 else entries[j].weight)
      && (us[j].role == Fallback <==> entries[j].role == "fallback")
      && (us[j].hasRPC <==> entries[j].rpcURL != "")
  }

  /** What the balancer, the executor and the health monitor rely on. */
  ghost predicate Usable(us: seq<Upstream>)
    reads us
  {
    PositiveWeights(us) && UniqueNames(us) && forall u :: u in us ==> u.healthy && u.currentBlock == 0
  }

  lemma ValidGroupsAreUsable(us: seq<Upstream>, gs: seq<Config.GroupConfig>, i: nat)
    requires i < |gs| && Config.GroupOk(gs, i) && Built(us, gs[i].upstreams)
    ensures PositiveWeights(us) && UniqueNames(us)
  {
    forall u | u in us ensures u.weight > 0 {
      var j :| 0 <= j < |us| && us[j] == u;
      assert Config.UpstreamOk(gs[i].upstreams, j);
    }
    forall j, k | 0 <= j < k < |us| ensures us[j].name != us[k].name {
      assert Config.UpstreamOk(gs[i].upstreams, k);
    }
  }

  method NewPool(g: Config.GroupConfig) returns (pool: Pool)
    ensures Built(pool.upstreams, g.upstreams)
    ensures forall u :: u in pool.upstreams ==> fresh(u) && u.healthy && u.currentBlock == 0
  {
    var us: seq<Upstream> := [];
    for j := 0 to |g.upstreams|
      invariant Built(us, g.upstreams[..j])
      invariant forall u :: u in us ==> fresh(u) && u.healthy && u.currentBlock == 0
    {
      var c := g.upstreams[j];
      var u := new Upstream(c.name, c.weight, RoleOf(c.role), c.rpcURL != "");
      us := us + [u];
    }
    assert g.upstreams[..|g.upstreams|] == g.upstreams;
    pool := new Pool(us);
  }

  function Defaulted(gs: seq<Config.GroupConfig>): seq<Config.GroupConfig> {
    seq(|gs|, i requires 0 <= i < |gs| => Config.GroupDefaults(gs[i]))
  }

  /** Defaults, validation, one pool per group: every pool of an accepted configuration is usable. */
  method Load(s: Config.Settings, gs: seq<Config.GroupConfig>, c: Config.CacheConfig)
    returns (p: Config.Problem, pools: seq<Pool>)
    ensures p == Config.NoProblem <==> Config.ValidConfig(Config.WithDefaults(s), Defaulted(gs), c)
    ensures p == Config.NoProblem ==>
      |pools| == |gs| && forall i :: 0 <= i < |gs| ==>
        Built(pools[i].upstreams, Config.GroupDefaults(gs[i]).upstreams) && Usable(pools[i].upstreams)
        && Describes(pools[i].upstreams, gs[i].upstreams)
    ensures p == Config.NoProblem <==> Config.AcceptedFile(s, gs, c)
    ensures p == Config.NoProblem ==>
      var d := Config.WithDefaults(s);
      d.retryMaxAttempts >= 1 && d.dedupCacheSize >= 1 && d.maxSubscriptionsPerClient >= 1 && d.lagRecoveryTimeout != 0
    ensures p != Config.NoProblem ==> pools == []
  {
    var config := new Config.Config(s, gs, c);
    config.ApplyDefaults();
    assert config.groups == Defaulted(gs);
    p := config.Validate();
    Config.AcceptedFilesAreValid(s, gs, Defaulted(gs), c);
    pools := [];
    if p != Config.NoProblem {
      return;
    }
    Config.LoadedConfigMeetsPreconditions(s, Defaulted(gs), c);
    var groups := config.groups;
    for i := 0 to |groups|
      invariant |pools| == i
      invariant forall k :: 0 <= k < i ==>
        Built(pools[k].upstreams, groups[k].upstreams) && Usable(pools[k].upstreams)
    {
      var pool := NewPool(groups[i]);
      ValidGroupsAreUsable(pool.upstreams, groups, i);
      pools := pools + [pool];
    }
  }
}
